/** Every step of the eviction protocol keeps the invariant; hence what holds of every run. */
module EvictSteps {
  import opened Options
  import opened LruQueue
  import opened QueueRefill
  import opened EvictProtocol
  import opened EvictInvariant

  ghost predicate Keeps(w: World, callers: Callers, a: Action)
    requires |w.queues| == 3
  {
    Enabled(w, a, callers) ==> Inv(Next(w, a), callers)
  }

  // ---------------------------------------------------------------- readers and pages

  lemma KeepsReaders(w: World, callers: Callers, r: Ref, more: bool)
    requires Inv(w, callers) && (more ==> r in w.mem)
    ensures Inv(w.(readers := if more then w.readers + multiset{r} else w.readers - multiset{r}), callers)
  {
    hide Bag, Structure, Flags, Walks, Searches, Locks, Busy, Counts, Exclusive, Progress, Conserved;
  }

  lemma KeepsPageIn(w: World, callers: Callers, r: Ref)
    requires Inv(w, callers) && r !in w.mem && r !in w.locked
    ensures Inv(w.(mem := w.mem + {r}), callers)
  {
    hide Bag, Structure, Flags, Walks, Searches, Locks, Busy, Counts, Exclusive, Progress, Conserved, Unprotected, Protected;
  }

  lemma KeepsCloseFree(w: World, callers: Callers, r: Ref)
    requires Inv(w, callers)
    ensures Keeps(w, callers, CloseFree(r))
  {
    hide Bag, Structure, Flags, Walks, Searches, Locks, Busy, Counts, Exclusive, Progress, Conserved;
    if !callers.Any? && Enabled(w, CloseFree(r), callers) {
      TurnedOffUnflagged(w, callers, r);
    }
  }

  /** With careful callers a page of a tree whose eviction is off carries no flag. */
  lemma TurnedOffUnflagged(w: World, callers: Callers, r: Ref)
    requires !callers.Any? && Inv(w, callers) && Count(w.holders, r.tree) > 0
    ensures r !in w.flagged
  {
    hide Bag, Structure, Memory, Searches, Locks, Busy, Progress, Conserved;
    assert Count(w.disabled, r.tree) >= Count(w.holders, r.tree) + Requests(w.gate, r.tree);
    assert SwitchedOff(w.disabled, w.gate, r.tree);
    NamedOnce(w.queues, w.visit, w.flagged, r);
  }

  /** Removing entries and flags disturbs neither a search, nor exclusive access, nor its acquisition. */
  lemma Shrinks(w: World, callers: Callers, qs: seq<Queue>, flagged: set<Ref>)
    requires Inv(w, callers) && |qs| == 3 && flagged <= w.flagged
    requires forall i :: 0 <= i < 3 ==> BagOf(qs, i) <= BagOf(w.queues, i)
    ensures Searches(w.jobs, qs, flagged)
    ensures Exclusive(callers, qs, w.walkPoint, w.jobs, w.disabled, w.gate)
    ensures Progress(callers, qs, w.walkPoint, w.gate)
  {
    hide BagOf, Structure, Flags, Memory, Unprotected, Locks, Busy, Counts, Conserved;
    assert forall i, t :: 0 <= i < 3 && Absent(BagOf(w.queues, i), t) ==> Absent(BagOf(qs, i), t);
  }

  /** What is said of the counts and of the trees turned off is said tree by tree. */
  lemma OtherTrees(callers: Callers, w: World, n: World, t: nat)
    requires |w.queues| == |n.queues| == 3 && n.queues == w.queues && n.jobs == w.jobs
    requires Counts(callers, w.holders, w.disabled, w.gate, w.visit)
    requires Exclusive(callers, w.queues, w.walkPoint, w.jobs, w.disabled, w.gate)
    requires forall s :: s != t ==> Count(n.disabled, s) == Count(w.disabled, s) && Count(n.holders, s) == Count(w.holders, s)
    requires forall s :: s != t ==> Requests(n.gate, s) == Requests(w.gate, s)
    requires forall s :: s != t && s in n.walkPoint ==> s in w.walkPoint
    requires Count(n.holders, t) >= 0
    requires !callers.Any? ==>
      && Count(n.disabled, t) >= Count(n.holders, t) + Requests(n.gate, t)
      && (SwitchedOff(n.disabled, n.gate, t) ==> TurnedOff(n.queues, n.walkPoint, n.jobs, t))
    requires callers.Serial? ==> Count(n.disabled, t) == Count(n.holders, t) + Requests(n.gate, t)
    ensures forall s :: Count(n.holders, s) >= 0
    ensures !callers.Any? ==> forall s :: Count(n.disabled, s) >= Count(n.holders, s) + Requests(n.gate, s)
    ensures callers.Serial? ==> forall s :: Count(n.disabled, s) == Count(n.holders, s) + Requests(n.gate, s)
    ensures Exclusive(callers, n.queues, n.walkPoint, n.jobs, n.disabled, n.gate)
  {
    hide Bag, BagOf, Absent;
    forall s | s != t ensures SwitchedOff(n.disabled, n.gate, s) <==> SwitchedOff(w.disabled, w.gate, s) {
    }
  }

  lemma OffNow(w: World, callers: Callers, t: nat)
    requires Inv(w, callers) && !callers.Any? && SwitchedOff(w.disabled, w.gate, t)
    ensures TurnedOff(w.queues, w.walkPoint, w.jobs, t)
  {
    hide Bag, Structure, Flags, Progress, Counts, Busy, Searches, Locks, Memory, Walks, Unprotected, Conserved, TurnedOff, SwitchedOff;
  }

  // ---------------------------------------------------------------- the server

  lemma KeepsServer(w: World, callers: Callers, a: Action)
    requires Inv(w, callers) && (a.ServerBegin? || a.ServerGiveUp?)
    ensures Keeps(w, callers, a)
  {
    hide Bag, Filled, Appended, Memory, Busy, Counts, Flags, Unprotected, Searches, Locks, Exclusive, Progress, Conserved;
  }

  lemma KeepsServerPublish(w: World, callers: Callers)
    requires Inv(w, callers)
    ensures Keeps(w, callers, ServerPublish)
  {
    hide Bag, Filled, Appended, Memory, Busy, Counts, Unprotected, Locks, Searches, Exclusive, Progress;
    if Enabled(w, ServerPublish, callers) {
      FilledAt(w.queues, w.server, w.server.q);
      Published(w.queues[w.server.q], w.server.slot);
      Shrinks(w, callers, Next(w, ServerPublish).queues, w.flagged);
    }
  }

  lemma FilledAt(qs: seq<Queue>, server: Server, i: nat)
    requires Structure(qs, server) && i < 2
    ensures Filled(qs[i], Front(qs, server, i))
  {
  }

  lemma Published(q: Queue, slot: nat)
    requires Filled(q, slot)
    ensures Filled(q.(entries := slot), slot)
  {
  }

  lemma KeepsVisitBegin(w: World, callers: Callers, t: nat)
    requires Inv(w, callers) && Enabled(w, VisitBegin(t), callers)
    ensures Inv(Next(w, VisitBegin(t)), callers)
  {
    hide Bag, Structure, Busy, Conserved, Searches, Agree, Exclusive, TurnedOff;
    var n := Next(w, VisitBegin(t));
    OtherTrees(callers, w, n, t);
    forall r | Protected(n.readers, n.visit, n.walkPoint, r) ensures Protected(w.readers, w.visit, w.walkPoint, r) {
    }
  }

  lemma KeepsVisitMove(w: World, callers: Callers, next: Option<Ref>)
    requires Inv(w, callers) && Enabled(w, VisitMove(next), callers)
    ensures Inv(Next(w, VisitMove(next)), callers)
  {
    hide Bag, Structure, Busy, Conserved, Searches, Locks, Agree, Exclusive, Progress;
    var n := Next(w, VisitMove(next));
    forall r | Protected(n.readers, n.visit, n.walkPoint, r) ensures Protected(w.readers, w.visit, w.walkPoint, r) || r in w.mem {
    }
  }

  lemma KeepsVisitEnd(w: World, callers: Callers, keep: bool)
    requires Inv(w, callers) && Enabled(w, VisitEnd(keep), callers)
    ensures Inv(Next(w, VisitEnd(keep)), callers)
  {
    hide Bag, Structure, Busy, Conserved, Searches, Agree, Exclusive, TurnedOff;
    var n := Next(w, VisitEnd(keep));
    OtherTrees(callers, w, n, w.visit.tree);
    forall r | Protected(n.readers, n.visit, n.walkPoint, r) ensures Protected(w.readers, w.visit, w.walkPoint, r) {
    }
  }

  lemma KeepsVisitFlag(w: World, callers: Callers)
    requires Inv(w, callers)
    ensures Keeps(w, callers, VisitFlag)
  {
    hide Bag, Structure, Busy, Conserved, Exclusive, Progress, Agree;
    if Enabled(w, VisitFlag, callers) {
      assert Queued(w.queues) + Pending(w.visit) == Queued(w.queues);
      Flag(Queued(w.queues), w.visit.cursor.value, w.flagged);
      assert Protected(w.readers, w.visit, w.walkPoint, w.visit.cursor.value);
      var n := Next(w, VisitFlag);
      assert Flags(n.queues, n.visit, n.flagged);
      assert Memory(callers, n.mem, n.locked, n.flagged, n.readers, n.visit, n.walkPoint);
      assert Unprotected(n.jobs, n.locked, n.readers, n.visit, n.walkPoint);
      assert Walks(n.visit, n.walkPoint, n.server, n.gate);
      assert Searches(n.jobs, n.queues, n.flagged);
      assert Counts(callers, n.holders, n.disabled, n.gate, n.visit);
    }
  }

  lemma KeepsVisitWrite(w: World, callers: Callers, score: nat)
    requires Inv(w, callers) && Enabled(w, VisitWrite(score), callers)
    ensures Inv(Next(w, VisitWrite(score)), callers)
  {
    hide Bag, Filled, Appended, Busy, Push, Flags, Memory, Unprotected, Counts, Locks, Searches, Exclusive, Progress, Conserved;
    var q, r := w.server.q, w.visit.cursor.value;
    var q' := Push(w.queues[q], w.server.slot, r, score);
    FilledAt(w.queues, w.server, q);
    PushFills(w.queues[q], w.server.slot, r, score);
    var n := Next(w, VisitWrite(score));
    assert Structure(n.queues, n.server);
    WriteMovesFlag(w.queues, q, q', w.visit, w.flagged);
    WriteKeepsMemory(w, callers);
    WriteKeepsOff(w, callers, q, q');
  }

  /** The page the walk had flagged is now named by the slot just written. */
  lemma WriteMovesFlag(qs: seq<Queue>, i: nat, q: Queue, visit: Visit, flagged: set<Ref>)
    requires |qs| == 3 && i < 2 && visit.In? && visit.pending && visit.cursor.Some? && Flags(qs, visit, flagged)
    requires Bag(q.slots) == BagOf(qs, i) + multiset{visit.cursor.value}
    ensures Flags(qs[i := q], visit.(pending := false), flagged)
  {
    hide Bag, Agree;
    assert Queued(qs[i := q]) + Pending(visit.(pending := false)) == Queued(qs) + Pending(visit);
  }

  lemma WriteKeepsMemory(w: World, callers: Callers)
    requires Inv(w, callers) && w.visit.In? && w.visit.pending
    ensures var v := w.visit.(pending := false);
      && Memory(callers, w.mem, w.locked, w.flagged, w.readers, v, w.walkPoint)
      && Unprotected(w.jobs, w.locked, w.readers, v, w.walkPoint)
      && Counts(callers, w.holders, w.disabled, w.gate, v)
  {
    hide Bag, Structure, Flags, Progress, Busy, Searches, Locks, Exclusive, Conserved;
    var v := w.visit.(pending := false);
    assert forall r :: Protected(w.readers, w.visit, w.walkPoint, r) == Protected(w.readers, v, w.walkPoint, r);
  }

  /** The tree being walked is not turned off, and no eviction holds the page the walk protects. */
  lemma WriteKeepsOff(w: World, callers: Callers, i: nat, q: Queue)
    requires Inv(w, callers) && i < 2 && w.visit.In? && w.visit.pending && w.visit.cursor.Some?
    requires Bag(q.slots) == BagOf(w.queues, i) + multiset{w.visit.cursor.value}
    ensures Searches(w.jobs, w.queues[i := q], w.flagged)
    ensures Exclusive(callers, w.queues[i := q], w.walkPoint, w.jobs, w.disabled, w.gate)
    ensures Progress(callers, w.queues[i := q], w.walkPoint, w.gate)
    ensures Conserved(w.queues[i := q], w.urgent)
  {
    hide Bag, Structure, Flags, Busy, Locks, Memory, Absent;
    var r, qs := w.visit.cursor.value, w.queues[i := q];
    assert Protected(w.readers, w.visit, w.walkPoint, r);
    assert forall j, s :: 0 <= j < 3 && s != r && s !in BagOf(w.queues, j) ==> s !in BagOf(qs, j);
    forall j, t | 0 <= j < 3 && t != r.tree && Absent(BagOf(w.queues, j), t) ensures Absent(BagOf(qs, j), t) {
      if j == i {
        AbsentWith(BagOf(w.queues, i), r, t);
      }
    }
  }

  lemma AbsentWith(b: multiset<Ref>, r: Ref, t: nat)
    requires Absent(b, t) && r.tree != t
    ensures Absent(b + multiset{r}, t)
  {
  }

  lemma KeepsServerSort(w: World, callers: Callers, sorted: seq<Entry>, debug: bool, aggressive: bool)
    requires Inv(w, callers) && Enabled(w, ServerSort(sorted, debug, aggressive), callers)
    ensures Inv(Next(w, ServerSort(sorted, debug, aggressive)), callers)
  {
    hide Bag, Filled, Appended, Memory, Busy, Counts, Unprotected, Locks, Searches, Exclusive, Progress, Refill, Flags,
      Gone, Agree, Sorted, Conserved, Thinner, Replace;
    var i, q := w.server.q, Refill(w.queues[w.server.q], sorted, aggressive);
    SortThins(w.queues, w.server, sorted, debug, aggressive);
    assert Bag(q.slots) <= BagOf(w.queues, i) by { ThinnerBag(w.queues, Resting, i, q); }
    KeepsRemoval(w, callers, i, q, w.urgent);
    StructureReplaced(w.queues, Resting, i, q);
    ReplaceOnly(w, i, q, w.urgent);
  }

  lemma ThinnerBag(qs: seq<Queue>, server: Server, i: nat, q: Queue)
    requires |qs| == 3 && i < 3 && Thinner(qs, server, i, q)
    ensures Bag(q.slots) <= BagOf(qs, i)
  {
    hide Bag;
  }

  lemma StructureReplaced(qs: seq<Queue>, server: Server, i: nat, q: Queue)
    requires |qs| == 3 && i < 3 && Thinner(qs, server, i, q)
    requires forall j :: 0 <= j < 2 && j != i ==> Filled(qs[j], Front(qs, server, j))
    requires i != 2 ==> Appended(qs[2])
    requires !server.Resting? ==> server.q < 2
    ensures Structure(qs[i := q], server)
  {
    hide Bag, Filled, Appended;
  }

  lemma ReplaceOnly(w: World, i: nat, q: Queue, log: Log)
    requires i < |w.queues|
    ensures var n := Replace(w, i, q, log);
      && n == w.(queues := w.queues[i := q], flagged := n.flagged, urgent := n.urgent)
  {
    hide Bag, Gone;
  }

  /** Replacing a queue by one with fewer entries, flags cleared to match. */
  lemma KeepsRemoval(w: World, callers: Callers, i: nat, q: Queue, log: Log)
    requires Inv(w, callers) && i < 3 && Bag(q.slots) <= BagOf(w.queues, i)
    requires i == 2 ==> Conserved(w.queues[2 := q], log)
    ensures var n := Replace(w, i, q, log);
      && Flags(n.queues, n.visit, n.flagged)
      && n.flagged <= w.flagged
      && Memory(callers, n.mem, n.locked, n.flagged, n.readers, n.visit, n.walkPoint)
      && Searches(n.jobs, n.queues, n.flagged)
      && Exclusive(callers, n.queues, n.walkPoint, n.jobs, n.disabled, n.gate)
      && Progress(callers, n.queues, n.walkPoint, n.gate)
      && Conserved(n.queues, n.urgent)
  {
    hide Bag, Structure, Busy, Counts, Unprotected, Locks, Searches, Exclusive, Progress, Agree, Queued;
    var n := Replace(w, i, q, log);
    RemovalAgrees(w.queues, w.visit, w.flagged, i, q);
    Shrinks(w, callers, n.queues, n.flagged);
  }

  // ---------------------------------------------------------------- evictions

  lemma KeepsHandOut(w: World, callers: Callers, i: nat, half: bool, decline: set<Ref>, lockable: set<Ref>)
    requires Inv(w, callers) && Enabled(w, HandOut(i, half, decline, lockable), callers)
    ensures Inv(Next(w, HandOut(i, half, decline, lockable)), callers)
  {
    hide Bag, Filled, Appended, Memory, Busy, Counts, Unprotected, Locks, Searches, Exclusive, Progress, Conserved,
      Take, Flags, Gone, Agree, Thinner, HandedOut, Replace, Walks;
    var t := Take(w.queues[i], ServerLimit(w.queues[i], half && i < 2), decline, lockable);
    HandOutThins(w.queues, w.server, i, half, decline, lockable);
    KeepsTaken(w, callers, i, t);
  }

  /** What a take removed was handed out or could not be locked. */
  ghost predicate Parted(q: Queue, t: Taken) {
    && (q.current.Some? ==> q.current.value <= t.end <= |q.slots|)
    && Bag(q.slots) == Bag(t.queue.slots) + Dropped(q, t) + Handed(t)
  }

  lemma KeepsTaken(w: World, callers: Callers, i: nat, t: Taken)
    requires Inv(w, callers) && i < 3 && Thinner(w.queues, w.server, i, t.queue)
    requires Parted(w.queues[i], t)
    requires t.handed.Some? ==> t.handed.value in w.mem && t.handed.value in BagOf(w.queues, i) - Bag(t.queue.slots)
    ensures Inv(HandedOut(w, i, t), callers)
  {
    hide Bag, Structure, Memory, Busy, Counts, Unprotected, Locks, Searches, Exclusive, Progress, Conserved,
      Flags, Gone, Agree, Thinner, Replace, Walks;
    assert Bag(t.queue.slots) <= BagOf(w.queues, i) by { ThinnerBag(w.queues, w.server, i, t.queue); }
    ConservedHandedOut(w, callers, i, t);
    var log := HandedLog(w.urgent, w.queues[i], t);
    KeepsReplace(w, callers, i, t.queue, log);
    ReplaceOnly(w, i, t.queue, log);
    if t.handed.Some? {
      KeepsGrab(w, callers, i, t);
    }
  }

  /** The page handed out was flagged, so its tree is not turned off and no eviction has it yet. */
  lemma KeepsGrab(w: World, callers: Callers, i: nat, t: Taken)
    requires Inv(w, callers) && i < 3 && Bag(t.queue.slots) <= BagOf(w.queues, i) && Parted(w.queues[i], t)
    requires t.handed.Some? && t.handed.value in w.mem && t.handed.value in BagOf(w.queues, i) - Bag(t.queue.slots)
    ensures var n := HandedOut(w, i, t);
      && Memory(callers, n.mem, n.locked, n.flagged, n.readers, n.visit, n.walkPoint)
      && Unprotected(n.jobs, n.locked, n.readers, n.visit, n.walkPoint)
      && Searches(n.jobs, n.queues, n.flagged)
      && Locks(n.jobs, n.queueLock, n.gate)
      && Busy(n.jobs, n.busy)
      && Exclusive(callers, n.queues, n.walkPoint, n.jobs, n.disabled, n.gate)
  {
    hide Bag, Structure, Flags, Progress, Counts, Gone, Agree, Busy, Replace, Searches, Locks, Exclusive, Walks, Memory, Conserved;
    var log := HandedLog(w.urgent, w.queues[i], t);
    var r, job, n := t.handed.value, Job(Grabbed, true, true), Replace(w, i, t.queue, log);
    ConservedHandedOut(w, callers, i, t);
    KeepsRemoval(w, callers, i, t.queue, log);
    ReplaceOnly(w, i, t.queue, log);
    NotYetAJob(w, callers, r);
    BusyAdd(w.jobs, w.busy, r, job);
    SearchesWith(w.jobs, n.queues, n.flagged, r, job);
    LocksWith(w.jobs, w.queueLock, w.queueLock, w.gate, r, job);
    UnprotectedWith(w.jobs, w.locked, w.readers, w.visit, w.walkPoint, r, job);
    MemoryGrabbed(w, callers, n.flagged, r);
    QueuedMeansOn(w, callers, i, r);
    ExclusiveWith(callers, n.queues, n.walkPoint, n.jobs, n.disabled, n.gate, r, job);
  }

  lemma NotYetAJob(w: World, callers: Callers, r: Ref)
    requires Inv(w, callers) && r in w.mem
    ensures r !in w.jobs
  {
    hide Bag, Structure, Flags, Progress, Counts, Busy, Searches, Locks, Exclusive, Walks, Conserved;
  }

  lemma MemoryGrabbed(w: World, callers: Callers, flagged: set<Ref>, r: Ref)
    requires Inv(w, callers) && r in w.mem && flagged <= w.flagged
    ensures Memory(callers, w.mem - {r}, w.locked + {r}, flagged, w.readers, w.visit, w.walkPoint)
  {
    hide Bag, Structure, Flags, Progress, Counts, Busy, Searches, Locks, Exclusive, Walks, Conserved, Unprotected;
  }

  lemma QueuedMeansOn(w: World, callers: Callers, i: nat, r: Ref)
    requires Inv(w, callers) && i < 3 && r in BagOf(w.queues, i)
    ensures callers.Any? || !SwitchedOff(w.disabled, w.gate, r.tree)
  {
    hide Bag, Structure, Flags, Progress, Counts, Busy, SwitchedOff, Searches, Locks, Memory, Walks, Conserved, Unprotected;
  }

  lemma ConservedHandedOut(w: World, callers: Callers, i: nat, t: Taken)
    requires Inv(w, callers) && i < 3 && Parted(w.queues[i], t)
    ensures i == 2 ==> Conserved(w.queues[2 := t.queue], HandedLog(w.urgent, w.queues[i], t))
  {
    hide Bag, Structure, Flags, Progress, Counts, Busy, Searches, Locks, Memory, Walks, Exclusive, Unprotected, Dropped, Handed;
  }

  lemma SearchesWith(jobs: map<Ref, Job>, qs: seq<Queue>, flagged: set<Ref>, r: Ref, job: Job)
    requires |qs| == 3 && Searches(jobs, qs, flagged)
    requires job.phase.Searching? ==> job.phase.k <= 3 && forall i :: 0 <= i < job.phase.k ==> r !in BagOf(qs, i)
    requires job.phase.Unqueued? ==> r !in flagged
    ensures Searches(jobs[r := job], qs, flagged)
  {
    hide Bag;
  }

  lemma LocksWith(jobs: map<Ref, Job>, lock: QueueLock, lock': QueueLock, gate: Gate, r: Ref, job: Job)
    requires Locks(jobs, lock, gate)
    requires job.phase.Searching? ==> lock' == ByJob(r)
    requires lock' == lock || (lock.Unlocked? && lock' == ByJob(r)) || (lock == ByJob(r) && lock' == Unlocked)
    ensures Locks(jobs[r := job], lock', gate)
  {
  }

  lemma UnprotectedWith(jobs: map<Ref, Job>, locked: set<Ref>, readers: multiset<Ref>, visit: Visit, walkPoint: map<nat, Ref>, r: Ref, job: Job)
    requires Unprotected(jobs, locked, readers, visit, walkPoint)
    requires job.lru ==> job.counted
    requires !job.phase.Grabbed? ==> job.counted && !Protected(readers, visit, walkPoint, r)
    ensures Unprotected(jobs[r := job], locked + {r}, readers, visit, walkPoint)
  {
    hide Protected;
  }

  lemma ExclusiveWith(callers: Callers, qs: seq<Queue>, walkPoint: map<nat, Ref>, jobs: map<Ref, Job>, disabled: map<nat, int>, gate: Gate, r: Ref, job: Job)
    requires |qs| == 3 && Exclusive(callers, qs, walkPoint, jobs, disabled, gate)
    requires job.lru ==> callers.Any? || !SwitchedOff(disabled, gate, r.tree) || (r in jobs && jobs[r].lru)
    ensures Exclusive(callers, qs, walkPoint, jobs[r := job], disabled, gate)
  {
    hide BagOf, Absent, SwitchedOff;
  }

  lemma CountedAdd(jobs: map<Ref, Job>, r: Ref, job: Job, t: nat)
    requires job.counted && (r in jobs ==> !jobs[r].counted)
    ensures r !in CountedOf(jobs, t)
    ensures CountedOf(jobs[r := job], t) == if t == r.tree then CountedOf(jobs, t) + {r} else CountedOf(jobs, t)
  {
  }

  lemma BusyAdd(jobs: map<Ref, Job>, busy: map<nat, int>, r: Ref, job: Job)
    requires Busy(jobs, busy) && job.counted && (r in jobs ==> !jobs[r].counted)
    ensures Busy(jobs[r := job], Add(busy, r.tree, 1))
  {
    hide CountedOf;
    forall t ensures Count(Add(busy, r.tree, 1), t) == |CountedOf(jobs[r := job], t)| {
      CountedAdd(jobs, r, job, t);
    }
  }

  lemma BusyEnd(jobs: map<Ref, Job>, busy: map<nat, int>, r: Ref)
    requires Busy(jobs, busy) && r in jobs
    ensures Busy(jobs - {r}, if jobs[r].counted then Add(busy, r.tree, -1) else busy)
  {
    forall t ensures Count(if jobs[r].counted then Add(busy, r.tree, -1) else busy, t) == |CountedOf(jobs - {r}, t)| {
      assert CountedOf(jobs - {r}, t) == CountedOf(jobs, t) - {r};
    }
  }

  /** A step of an eviction that leaves it counted as it was. */
  lemma BusySame(jobs: map<Ref, Job>, busy: map<nat, int>, r: Ref, job: Job)
    requires Busy(jobs, busy) && (r in jobs ==> jobs[r].counted == job.counted) && (r !in jobs ==> !job.counted)
    ensures Busy(jobs[r := job], busy)
  {
    forall t ensures CountedOf(jobs[r := job], t) == CountedOf(jobs, t) {
    }
  }

  /** A step of one eviction that changes nothing but its own record and the queue lock. */
  lemma KeepsJob(w: World, callers: Callers, r: Ref, job: Job, lock: QueueLock)
    requires Inv(w, callers) && r in w.jobs && job.lru == w.jobs[r].lru && job.counted == w.jobs[r].counted
    requires job.phase.Searching? ==> lock == ByJob(r) && job.phase.k <= 3 && forall i :: 0 <= i < job.phase.k ==> r !in BagOf(w.queues, i)
    requires job.phase.Unqueued? ==> r !in w.flagged
    requires || lock == w.queueLock
             || (w.queueLock.Unlocked? && lock == ByJob(r))
             || (w.queueLock == ByJob(r) && lock == Unlocked)
    requires !job.phase.Grabbed? ==> job.counted && !Protected(w.readers, w.visit, w.walkPoint, r)
    ensures Inv(w.(jobs := w.jobs[r := job], queueLock := lock), callers)
  {
    hide Bag, Structure, Flags, Progress, Counts, Busy, Searches, Locks, Exclusive, Walks, Memory, Conserved, Protected;
    JobLocked(w, callers, r);
    assert w.locked + {r} == w.locked;
    BusySame(w.jobs, w.busy, r, job);
    SearchesWith(w.jobs, w.queues, w.flagged, r, job);
    LocksWith(w.jobs, w.queueLock, lock, w.gate, r, job);
    UnprotectedWith(w.jobs, w.locked, w.readers, w.visit, w.walkPoint, r, job);
    ExclusiveWith(callers, w.queues, w.walkPoint, w.jobs, w.disabled, w.gate, r, job);
  }

  lemma JobLocked(w: World, callers: Callers, r: Ref)
    requires Inv(w, callers) && r in w.jobs
    ensures r in w.locked && (w.jobs[r].lru ==> w.jobs[r].counted)
    ensures !w.jobs[r].phase.Grabbed? ==> w.jobs[r].counted && !Protected(w.readers, w.visit, w.walkPoint, r)
    ensures w.jobs[r].phase.Searching? ==> w.queueLock == ByJob(r)
  {
    hide Bag, Structure, Flags, Progress, Counts, Busy, Searches, Exclusive, Walks, Memory, Conserved, Protected;
  }

  lemma KeepsForceLock(w: World, callers: Callers, r: Ref)
    requires Inv(w, callers) && r in w.mem
    ensures Inv(Next(w, ForceLock(r)), callers)
  {
    hide Bag, Structure, Flags, Progress, Counts, Busy, Searches, Locks, Exclusive, Walks, Memory, Conserved, Protected, Unprotected;
    var job := Job(Grabbed, false, false);
    NotYetAJob(w, callers, r);
    BusySame(w.jobs, w.busy, r, job);
    SearchesWith(w.jobs, w.queues, w.flagged, r, job);
    LocksWith(w.jobs, w.queueLock, w.queueLock, w.gate, r, job);
    UnprotectedWith(w.jobs, w.locked, w.readers, w.visit, w.walkPoint, r, job);
    MemoryGrabbed(w, callers, w.flagged, r);
    ExclusiveWith(callers, w.queues, w.walkPoint, w.jobs, w.disabled, w.gate, r, job);
  }

  lemma KeepsForceCount(w: World, callers: Callers, r: Ref)
    requires Inv(w, callers) && Enabled(w, ForceCount(r), callers)
    ensures Inv(Next(w, ForceCount(r)), callers)
  {
    hide Bag, Structure, Flags, Progress, Counts, Busy, Searches, Locks, Exclusive, Walks, Memory, Conserved, Protected, Unprotected;
    var job := w.jobs[r].(counted := true);
    JobLocked(w, callers, r);
    SearchOf(w, callers, r);
    assert w.locked + {r} == w.locked;
    BusyAdd(w.jobs, w.busy, r, job);
    SearchesWith(w.jobs, w.queues, w.flagged, r, job);
    LocksWith(w.jobs, w.queueLock, w.queueLock, w.gate, r, job);
    UnprotectedWith(w.jobs, w.locked, w.readers, w.visit, w.walkPoint, r, job);
    ExclusiveWith(callers, w.queues, w.walkPoint, w.jobs, w.disabled, w.gate, r, job);
  }

  lemma SearchOf(w: World, callers: Callers, r: Ref)
    requires Inv(w, callers) && r in w.jobs
    ensures w.jobs[r].phase.Searching? ==> w.jobs[r].phase.k <= 3 && forall i :: 0 <= i < w.jobs[r].phase.k ==> r !in BagOf(w.queues, i)
    ensures w.jobs[r].phase.Unqueued? ==> r !in w.flagged
  {
    hide Bag, Structure, Flags, Progress, Counts, Busy, Exclusive, Walks, Memory, Conserved, Protected, Locks;
  }

  lemma KeepsJobCheck(w: World, callers: Callers, r: Ref)
    requires Inv(w, callers) && Enabled(w, JobCheck(r), callers)
    ensures Inv(Next(w, JobCheck(r)), callers)
  {
    hide Inv;
    KeepsJob(w, callers, r, w.jobs[r].(phase := Checked), w.queueLock);
  }

  lemma KeepsJobSearch(w: World, callers: Callers, r: Ref)
    requires Inv(w, callers) && Enabled(w, JobSearch(r), callers)
    ensures Inv(Next(w, JobSearch(r)), callers)
  {
    hide Inv, Protected;
    JobLocked(w, callers, r);
    KeepsJob(w, callers, r, w.jobs[r].(phase := if r in w.flagged then Searching(0) else Unqueued), if r in w.flagged then ByJob(r) else w.queueLock);
  }

  /** When the search has passed all three queues without a match the flag is already clear, as the
      program asserts. */
  lemma SearchedAll(w: World, callers: Callers, r: Ref)
    requires Inv(w, callers) && r in w.jobs && w.jobs[r].phase.Searching? && w.jobs[r].phase.k == 3
    ensures r !in w.flagged
  {
    hide Bag, Structure, Progress, Counts, Conserved, Busy, Exclusive, Locks;
    NamedOnce(w.queues, w.visit, w.flagged, r);
    assert r !in BagOf(w.queues, 0) && r !in BagOf(w.queues, 1) && r !in BagOf(w.queues, 2);
    assert r !in Pending(w.visit);
  }

  /** When it finds the page, that was its only entry. */
  lemma FoundOnly(w: World, callers: Callers, r: Ref, k: nat)
    requires Inv(w, callers) && k < 3 && r in BagOf(w.queues, k)
    ensures r in Gone(w.queues[k], w.queues[k].(slots := ClearRef(w.queues[k].slots, w.queues[k].max, r)))
  {
    hide Bag, Structure, Memory, Progress, Counts, Conserved, Busy, Exclusive, Locks;
    assert Structure(w.queues, w.server);
    ClearRefThins(w.queues, w.server, k, r);
    NamedOnce(w.queues, w.visit, w.flagged, r);
    assert BagOf(w.queues, k)[r] == 1;
  }

  lemma KeepsJobStep(w: World, callers: Callers, r: Ref)
    requires Inv(w, callers) && Enabled(w, JobStep(r), callers)
    ensures Inv(Next(w, JobStep(r)), callers)
  {
    hide Inv, Protected, Bag;
    InvStructure(w, callers);
    JobLocked(w, callers, r);
    SearchOf(w, callers, r);
    var job := w.jobs[r];
    var k := job.phase.k;
    if k >= 3 {
      SearchedAll(w, callers, r);
      KeepsJob(w, callers, r, job.(phase := Unqueued), Unlocked);
    } else if r in BagOf(w.queues, k) {
      KeepsFound(w, callers, r);
    } else {
      KeepsJob(w, callers, r, job.(phase := Searching(k + 1)), w.queueLock);
    }
  }

  lemma KeepsFound(w: World, callers: Callers, r: Ref)
    requires Inv(w, callers) && Enabled(w, JobStep(r), callers) && w.jobs[r].phase.k < 3 && r in BagOf(w.queues, w.jobs[r].phase.k)
    ensures Inv(Next(w, JobStep(r)), callers)
  {
    hide Bag, Inv, ClearRef, Gone, Thinner, Replace, Structure, Protected;
    InvStructure(w, callers);
    var k := w.jobs[r].phase.k;
    var q := w.queues[k].(slots := ClearRef(w.queues[k].slots, w.queues[k].max, r));
    JobLocked(w, callers, r);
    ClearRefThins(w.queues, w.server, k, r);
    FoundOnly(w, callers, r, k);
    var log := w.urgent.(byPage := w.urgent.byPage + multiset{r});
    assert k == 2 ==> Conserved(w.queues[2 := q], log) by {
      if k == 2 {
        ConservedFound(w, callers, r, q);
      }
    }
    KeepsReplace(w, callers, k, q, log);
    ReplaceOnly(w, k, q, log);
    assert r !in Replace(w, k, q, log).flagged by { ReplaceUnflags(w, k, q, log, r); }
    KeepsJob(Replace(w, k, q, log), callers, r, w.jobs[r].(phase := Unqueued), Unlocked);
  }

  lemma ConservedFound(w: World, callers: Callers, r: Ref, q: Queue)
    requires Inv(w, callers) && Bag(q.slots) == BagOf(w.queues, 2) - multiset{r} && r in BagOf(w.queues, 2)
    ensures Conserved(w.queues[2 := q], w.urgent.(byPage := w.urgent.byPage + multiset{r}))
  {
    hide Bag, Structure, Flags, Progress, Counts, Busy, Searches, Locks, Memory, Walks, Exclusive, Unprotected;
    assert BagOf(w.queues, 2) == Bag(q.slots) + multiset{r};
  }

  lemma InvStructure(w: World, callers: Callers)
    requires Inv(w, callers)
    ensures |w.queues| == 3 && Structure(w.queues, w.server)
  {
    hide Structure;
  }

  lemma ReplaceUnflags(w: World, i: nat, q: Queue, log: Log, r: Ref)
    requires i < |w.queues| && r in Gone(w.queues[i], q)
    ensures r !in Replace(w, i, q, log).flagged
  {
    hide Gone, Bag;
  }

  lemma KeepsReplace(w: World, callers: Callers, i: nat, q: Queue, log: Log)
    requires Inv(w, callers) && i < 3 && Thinner(w.queues, w.server, i, q)
    requires i == 2 ==> Conserved(w.queues[2 := q], log)
    ensures Inv(Replace(w, i, q, log), callers)
  {
    hide Bag, Filled, Appended, Memory, Busy, Counts, Unprotected, Locks, Searches, Exclusive, Progress, Conserved,
      Flags, Gone, Agree, Thinner, Replace, Walks;
    ThinnerBag(w.queues, w.server, i, q);
    KeepsRemoval(w, callers, i, q, log);
    StructureReplaced(w.queues, w.server, i, q);
    ReplaceOnly(w, i, q, log);
  }

  lemma KeepsJobEnd(w: World, callers: Callers, r: Ref, stays: bool)
    requires Inv(w, callers)
    ensures Keeps(w, callers, if stays then JobFail(r) else JobDiscard(r))
  {
    hide Bag, Structure, Flags, Progress, Counts, Conserved, Busy, Walks, Memory, Unprotected, Searches, Locks, Exclusive;
    if Enabled(w, if stays then JobFail(r) else JobDiscard(r), callers) {
      BusyEnd(w.jobs, w.busy, r);
      OneFewer(w, callers, r);
      EndedMemory(w, callers, r, stays);
    }
  }

  /** One eviction fewer. */
  lemma OneFewer(w: World, callers: Callers, r: Ref)
    requires Inv(w, callers)
    ensures Unprotected(w.jobs - {r}, w.locked - {r}, w.readers, w.visit, w.walkPoint)
    ensures Searches(w.jobs - {r}, w.queues, w.flagged)
    ensures Locks(w.jobs - {r}, w.queueLock, w.gate)
    ensures Exclusive(callers, w.queues, w.walkPoint, w.jobs - {r}, w.disabled, w.gate)
  {
    hide Bag, Structure, Flags, Progress, Counts, Conserved, Busy, Walks, Memory;
  }

  lemma EndedMemory(w: World, callers: Callers, r: Ref, stays: bool)
    requires Inv(w, callers) && r in w.jobs && (stays || w.jobs[r].phase.Unqueued?)
    ensures Memory(callers, if stays then w.mem + {r} else w.mem, w.locked - {r}, w.flagged, w.readers, w.visit, w.walkPoint)
  {
    hide Bag, Structure, Flags, Progress, Counts, Conserved, Busy, Walks, Exclusive, Locks;
  }

  // ---------------------------------------------------------------- the urgent queue

  lemma KeepsUrgentPush(w: World, callers: Callers, r: Ref, score: nat)
    requires Inv(w, callers) && Enabled(w, UrgentPush(r, score), callers)
    ensures Inv(Next(w, UrgentPush(r, score)), callers)
  {
    hide Bag, Filled, UrgentReady, Busy, Flags, Memory, Unprotected, Locks, Counts, Searches, Exclusive, Progress,
      Urgent, Rewind, Protected, Walks;
    var q := Urgent(w.queues[2], r, score);
    UrgentAppends(w.queues[2], r, score);
    UrgentLength(w.queues[2], r, score);
    PushSetsFlag(w.queues, q, w.visit, w.flagged, r);
    PushKeepsMemory(w, callers, r);
    PushKeepsOff(w, callers, q, r);
  }

  lemma UrgentLength(q: Queue, r: Ref, score: nat)
    ensures |Urgent(q, r, score).slots| == |q.slots| && |Rewind(q).slots| == |q.slots|
    ensures Rewind(q).slots == q.slots
  {
  }

  lemma PushSetsFlag(qs: seq<Queue>, q: Queue, visit: Visit, flagged: set<Ref>, r: Ref)
    requires |qs| == 3 && Flags(qs, visit, flagged) && r !in flagged && Bag(q.slots) == BagOf(qs, 2) + multiset{r}
    ensures Flags(qs[2 := q], visit, flagged + {r})
  {
    hide Bag, Agree;
    assert Queued(qs[2 := q]) + Pending(visit) == Queued(qs) + Pending(visit) + multiset{r};
    Flag(Queued(qs) + Pending(visit), r, flagged);
  }

  lemma PushKeepsMemory(w: World, callers: Callers, r: Ref)
    requires Inv(w, callers) && Hazard(w, r)
    ensures Memory(callers, w.mem, w.locked, w.flagged + {r}, w.readers, w.visit, w.walkPoint)
  {
    hide Bag, Structure, Flags, Progress, Busy, Searches, Locks, Exclusive, Conserved, Counts, Walks;
    assert Protected(w.readers, w.visit, w.walkPoint, r);
  }

  /** The tree of a page pushed is neither turned off nor being turned off, and no eviction has
      already taken the page off the queues. */
  lemma PushKeepsOff(w: World, callers: Callers, q: Queue, r: Ref)
    requires Inv(w, callers) && Hazard(w, r) && w.queueLock.Unlocked? && Count(w.disabled, r.tree) <= 0
    requires Bag(q.slots) == BagOf(w.queues, 2) + multiset{r}
    ensures Searches(w.jobs, w.queues[2 := q], w.flagged + {r})
    ensures Exclusive(callers, w.queues[2 := q], w.walkPoint, w.jobs, w.disabled, w.gate)
    ensures Progress(callers, w.queues[2 := q], w.walkPoint, w.gate)
  {
    hide Bag, Structure, Flags, Busy, Memory, Absent, Walks, Conserved;
    var qs := w.queues[2 := q];
    assert Protected(w.readers, w.visit, w.walkPoint, r);
    forall j, t | 0 <= j < 3 && t != r.tree && Absent(BagOf(w.queues, j), t) ensures Absent(BagOf(qs, j), t) {
      if j == 2 {
        AbsentWith(BagOf(w.queues, 2), r, t);
      }
    }
  }

  lemma KeepsUrgentRewind(w: World, callers: Callers, r: Ref)
    requires Inv(w, callers)
    ensures Inv(w.(queues := w.queues[2 := Rewind(w.queues[2])]), callers)
  {
    hide Bag, Filled, UrgentReady, Busy, Memory, Unprotected, Locks, Counts, Searches, Exclusive, Progress, Rewind, Walks, Agree;
    UrgentLength(w.queues[2], r, 0);
    RewindKeeps(w.queues[2]);
    var qs := w.queues[2 := Rewind(w.queues[2])];
    assert forall i :: 0 <= i < 3 ==> BagOf(qs, i) == BagOf(w.queues, i);
    Shrinks(w, callers, qs, w.flagged);
  }

  // ---------------------------------------------------------------- turning eviction off and on

  /** A request reads the count; nothing else changes. */
  lemma KeepsOnLoad(w: World, callers: Callers, t: nat)
    requires Inv(w, callers) && Enabled(w, OnLoad(t), callers)
    ensures Inv(Next(w, OnLoad(t)), callers)
  {
    hide Bag, Structure, Busy, Memory, Unprotected, Searches, TurnedOff, Exclusive, Conserved, Flags;
    if !callers.Any? && Count(w.disabled, t) > 0 {
      OffNow(w, callers, t);
    }
    OtherTrees(callers, w, Next(w, OnLoad(t)), t);
  }

  /** A request that read a raised count finds the tree still off; one that read zero is the first. */
  lemma KeepsOnStore(w: World, callers: Callers)
    requires Inv(w, callers) && w.gate.Switching? && w.gate.phase.Loaded?
    ensures Inv(RaisedTo(w, w.gate.tree, w.gate.phase.v + 1), callers)
  {
    hide Bag, BagOf, Absent, Structure, Busy, Memory, Unprotected, Searches, TurnedOff, Exclusive, Conserved, Flags;
    var t, v := w.gate.tree, w.gate.phase.v + 1;
    assert callers.Any? || Count(w.disabled, t) >= Count(w.holders, t) + Requests(w.gate, t);
    if !callers.Any? && Count(w.disabled, t) > 0 {
      OffNow(w, callers, t);
    }
    if v > 1 {
      OtherTrees(callers, w, w.(disabled := w.disabled[t := v], gate := Open, holders := Add(w.holders, t, 1)), t);
    } else {
      OtherTrees(callers, w, w.(disabled := w.disabled[t := v], gate := Switching(t, Raised)), t);
    }
  }

  lemma KeepsOnClearWalk(w: World, callers: Callers, ok: bool)
    requires Inv(w, callers) && Enabled(w, OnClearWalk(ok), callers)
    ensures Inv(Next(w, OnClearWalk(ok)), callers)
  {
    hide Bag, Structure, Busy, Searches, Conserved, Flags, Absent, Exclusive, TurnedOff;
    var t := w.gate.tree;
    assert callers.Any? || Count(w.disabled, t) >= Count(w.holders, t) + Requests(w.gate, t);
    OtherTrees(callers, w, Next(w, OnClearWalk(ok)), t);
    assert forall r :: Protected(w.readers, w.visit, w.walkPoint - {t}, r) ==> Protected(w.readers, w.visit, w.walkPoint, r);
  }

  lemma KeepsOnLockQueues(w: World, callers: Callers)
    requires Inv(w, callers) && Enabled(w, OnLockQueues, callers)
    ensures Inv(Next(w, OnLockQueues), callers)
  {
    hide Bag, Structure, Busy, Searches, Conserved, Flags, Exclusive, TurnedOff, Memory, Unprotected;
    var t := w.gate.tree;
    assert callers.Any? || Count(w.disabled, t) >= Count(w.holders, t) + Requests(w.gate, t);
    OtherTrees(callers, w, Next(w, OnLockQueues), t);
  }

  lemma KeepsOnClearQueue(w: World, callers: Callers)
    requires Inv(w, callers) && Enabled(w, OnClearQueue, callers)
    ensures Inv(Next(w, OnClearQueue), callers)
  {
    hide Bag, Inv, Structure, Thinner, Replace, ClearTree, TreeBag, Absent;
    InvStructure(w, callers);
    var k, t := w.gate.phase.k, w.gate.tree;
    var q := w.queues[k].(slots := ClearTree(w.queues[k].slots, w.queues[k].max, t));
    ClearTreeThins(w.queues, w.server, k, t);
    var log := w.urgent.(byTree := w.urgent.byTree + TreeBag(w.queues[k].slots, t));
    assert k == 2 ==> Conserved(w.queues[2 := q], log) by {
      if k == 2 {
        ConservedCleared(w, callers, t, q);
      }
    }
    KeepsReplace(w, callers, k, q, log);
    ReplaceOnly(w, k, q, log);
    KeepsCleared(Replace(w, k, q, log), callers);
  }

  /** One more queue is clear of the tree. */
  lemma KeepsCleared(w: World, callers: Callers)
    requires Inv(w, callers) && w.gate.Switching? && w.gate.phase.Clearing? && w.gate.phase.k < 3
    requires Absent(BagOf(w.queues, w.gate.phase.k), w.gate.tree)
    ensures var t, k := w.gate.tree, w.gate.phase.k;
      && (k < 2 ==> Inv(w.(gate := Switching(t, Clearing(k + 1))), callers))
      && (k == 2 ==> Inv(w.(gate := Switching(t, Draining), queueLock := Unlocked), callers))
  {
    hide Bag, Structure, Busy, Searches, Conserved, Flags, Exclusive, TurnedOff, Memory, Unprotected, Absent;
    var t, k := w.gate.tree, w.gate.phase.k;
    assert callers.Any? || Count(w.disabled, t) >= Count(w.holders, t) + Requests(w.gate, t);
    OtherTrees(callers, w, w.(gate := Switching(t, if k < 2 then Clearing(k + 1) else Draining)), t);
  }

  lemma ConservedCleared(w: World, callers: Callers, t: nat, q: Queue)
    requires Inv(w, callers) && BagOf(w.queues, 2) == Bag(q.slots) + TreeBag(w.queues[2].slots, t)
    ensures Conserved(w.queues[2 := q], w.urgent.(byTree := w.urgent.byTree + TreeBag(w.queues[2].slots, t)))
  {
    hide Bag, TreeBag, Structure, Flags, Progress, Counts, Busy, Searches, Locks, Memory, Walks, Exclusive, Unprotected;
  }

  /** Nothing counted busy in the tree means no page handed out from it is still being evicted. */
  lemma KeepsOnDrained(w: World, callers: Callers)
    requires Inv(w, callers) && Enabled(w, OnDrained, callers)
    ensures Inv(Next(w, OnDrained), callers)
  {
    hide Bag, Structure, Busy, Searches, Conserved, Flags, Memory, Unprotected, Exclusive, TurnedOff;
    var t := w.gate.tree;
    assert callers.Any? || Count(w.disabled, t) >= Count(w.holders, t) + Requests(w.gate, t);
    DrainedIsOff(w, callers);
    OtherTrees(callers, w, Next(w, OnDrained), t);
  }

  lemma DrainedIsOff(w: World, callers: Callers)
    requires Inv(w, callers) && Guard(w, OnDrained)
    ensures callers.Any? || TurnedOff(w.queues, w.walkPoint, w.jobs, w.gate.tree)
  {
    hide Bag, Structure, Searches, Conserved, Flags, Memory, Absent, Counts, Walks, Locks;
    var t := w.gate.tree;
    assert CountedOf(w.jobs, t) == {};
    forall r | r in w.jobs && w.jobs[r].lru ensures r.tree != t {
      assert r !in CountedOf(w.jobs, t);
    }
  }

  /** A release that leaves the count raised leaves the tree off, and one that does not lets it go. */
  lemma KeepsOff(w: World, callers: Callers, t: nat)
    requires Inv(w, callers) && Enabled(w, Off(t), callers)
    ensures Inv(Next(w, Off(t)), callers)
  {
    hide Bag, Structure, Busy, Memory, Unprotected, Searches, TurnedOff, Conserved, Flags, Exclusive;
    assert callers.Any? || Count(w.disabled, t) >= Count(w.holders, t) + Requests(w.gate, t);
    if !callers.Any? {
      OffNow(w, callers, t);
    }
    OtherTrees(callers, w, Next(w, Off(t)), t);
  }

  // ---------------------------------------------------------------- every step

  lemma StepKeeps(w: World, callers: Callers, a: Action)
    requires Inv(w, callers) && Enabled(w, a, callers)
    ensures Inv(Next(w, a), callers)
  {
    hide Inv;
    match a
    case ServerBegin(_) => KeepsServer(w, callers, a);
    case VisitBegin(t) => KeepsVisitBegin(w, callers, t);
    case VisitMove(next) => KeepsVisitMove(w, callers, next);
    case VisitFlag => KeepsVisitFlag(w, callers);
    case VisitWrite(score) => KeepsVisitWrite(w, callers, score);
    case VisitEnd(keep) => KeepsVisitEnd(w, callers, keep);
    case ServerPublish => KeepsServerPublish(w, callers);
    case ServerSort(sorted, debug, aggressive) => KeepsServerSort(w, callers, sorted, debug, aggressive);
    case ServerGiveUp => KeepsServer(w, callers, a);
    case HandOut(i, half, decline, lockable) => KeepsHandOut(w, callers, i, half, decline, lockable);
    case ForceLock(r) => KeepsForceLock(w, callers, r);
    case ForceCount(r) => KeepsForceCount(w, callers, r);
    case JobCheck(r) => KeepsJobCheck(w, callers, r);
    case JobSearch(r) => KeepsJobSearch(w, callers, r);
    case JobStep(r) => KeepsJobStep(w, callers, r);
    case JobDiscard(r) => KeepsJobEnd(w, callers, r, false);
    case JobFail(r) => KeepsJobEnd(w, callers, r, true);
    case Acquire(r) => KeepsReaders(w, callers, r, true);
    case Release(r) => KeepsReaders(w, callers, r, false);
    case PageIn(r) => KeepsPageIn(w, callers, r);
    case UrgentPush(r, score) => KeepsUrgentPush(w, callers, r, score);
    case UrgentRewind(r) => KeepsUrgentRewind(w, callers, r);
    case OnLoad(t) => KeepsOnLoad(w, callers, t);
    case OnStore => KeepsOnStore(w, callers);
    case OnClearWalk(ok) => KeepsOnClearWalk(w, callers, ok);
    case OnLockQueues => KeepsOnLockQueues(w, callers);
    case OnClearQueue => KeepsOnClearQueue(w, callers);
    case OnDrained => KeepsOnDrained(w, callers);
    case Off(t) => KeepsOff(w, callers, t);
    case CloseFree(r) => KeepsCloseFree(w, callers, r);
  }

  lemma {:induction false} RunsKeep(run: seq<World>, callers: Callers)
    requires IsRun(run, callers)
    ensures Inv(run[|run| - 1], callers)
  {
    hide Inv, Enabled, Next, Init;
    if |run| == 1 {
      InitHolds(run[0], callers);
    } else {
      var w, w' := run[|run| - 2], run[|run| - 1];
      RunsKeep(run[..|run| - 1], callers);
      var a :| IsStep(w, a, w', callers);
      StepKeeps(w, callers, a);
    }
  }
}
