/** What holds in every world any interleaving can reach. */
module EvictRuns {
  import opened Options
  import opened LruQueue
  import opened QueueRefill
  import opened EvictProtocol
  import opened EvictInvariant
  import opened EvictSteps

  ghost predicate Reachable(w: World, callers: Callers) {
    exists run :: IsRun(run, callers) && run[|run| - 1] == w
  }

  lemma ReachableInv(w: World, callers: Callers)
    requires Reachable(w, callers)
    ensures Inv(w, callers)
  {
    hide Inv;
    var run :| IsRun(run, callers) && run[|run| - 1] == w;
    RunsKeep(run, callers);
  }

  // ---------------------------------------------------------------- exclusive access

  /** No queue entry names the tree, the server keeps no place in it and is not walking it, and no
      page of it that was handed out is still being evicted. */
  ghost predicate Excluded(w: World, t: nat) {
    && (forall i, k :: 0 <= i < |w.queues| && 0 <= k < |w.queues[i].slots| && w.queues[i].slots[k].ref.Some? ==>
          w.queues[i].slots[k].ref.value.tree != t)
    && t !in w.walkPoint
    && !(w.visit.In? && w.visit.tree == t)
    && (forall r :: r in w.jobs && w.jobs[r].lru ==> r.tree != t)
  }

  ghost predicate Safe(w: World) {
    forall t :: Count(w.holders, t) > 0 ==> Excluded(w, t)
  }

  /** As long as the last holder of a tree does not release it between another request's read and
      store of the count, whoever holds the tree has it to itself. */
  lemma ExclusiveAccess(w: World, callers: Callers, t: nat)
    requires !callers.Any? && Reachable(w, callers) && Count(w.holders, t) > 0
    ensures Excluded(w, t)
  {
    hide Reachable, Bag, Structure, Memory, Unprotected, Searches, Locks, Flags, Busy, Progress, Conserved;
    ReachableInv(w, callers);
    assert Count(w.disabled, t) >= Count(w.holders, t) + Requests(w.gate, t);
    assert SwitchedOff(w.disabled, w.gate, t);
    forall i, k | 0 <= i < |w.queues| && 0 <= k < |w.queues[i].slots| && w.queues[i].slots[k].ref.Some?
      ensures w.queues[i].slots[k].ref.value.tree != t
    {
      BagMember(w.queues[i].slots, w.queues[i].slots[k].ref.value);
      assert w.queues[i].slots[k].ref.value in BagOf(w.queues, i);
    }
  }

  /** Eviction of a tree is on again exactly when every request that returned has been released. */
  ghost predicate Balanced(w: World) {
    forall t :: Requests(w.gate, t) == 0 ==> Count(w.disabled, t) == Count(w.holders, t)
  }

  lemma SerialIsBalanced(w: World)
    requires Reachable(w, Serial)
    ensures Balanced(w)
  {
    hide Reachable, Bag, Structure, Memory, Unprotected, Searches, Locks, Flags, Busy, Progress, Conserved, Exclusive;
    ReachableInv(w, Serial);
  }

  // ---------------------------------------------------------------- entries

  ghost predicate Names(w: World, i: nat, k: nat, r: Ref) {
    i < |w.queues| && k < |w.queues[i].slots| && w.queues[i].slots[k].ref == Some(r)
  }

  lemma NamedIsQueued(w: World, callers: Callers, i: nat, k: nat, r: Ref)
    requires Reachable(w, callers) && Names(w, i, k, r)
    ensures |w.queues| == 3 && i < 3 && r in BagOf(w.queues, i) && r in w.flagged && k < w.queues[i].max
    ensures r !in Pending(w.visit)
    ensures forall j :: 0 <= j < 3 && r in BagOf(w.queues, j) ==> j == i
  {
    hide Reachable, Bag, UrgentReady, Memory, Unprotected, Searches, Locks, Busy, Progress, Conserved, Counts, Exclusive, Walks, Agree;
    ReachableInv(w, callers);
    BagMember(w.queues[i].slots, r);
    NamedOnce(w.queues, w.visit, w.flagged, r);
    assert Shape(w.queues[i]) by { InvShape(w, callers, i); }
  }

  lemma InvShape(w: World, callers: Callers, i: nat)
    requires Inv(w, callers) && i < 3
    ensures Shape(w.queues[i])
  {
    hide Bag, Memory, Unprotected, Searches, Locks, Busy, Progress, Conserved, Counts, Exclusive, Walks, Agree, Shape;
  }

  /** Every entry names a page in memory, and no eviction of it has passed the point of unqueueing it. */
  ghost predicate NoneDangles(w: World) {
    forall i: nat, k: nat, r: Ref :: Names(w, i, k, r) ==> r in w.mem + w.locked && (r in w.jobs ==> !w.jobs[r].phase.Unqueued?)
  }

  /** With the same care no entry dangles. */
  lemma NoDanglingEntry(w: World, callers: Callers)
    requires !callers.Any? && Reachable(w, callers)
    ensures NoneDangles(w)
  {
    hide Reachable, Bag, Structure, Flags, Locks, Busy, Progress, Conserved, Counts, Exclusive, Walks;
    ReachableInv(w, callers);
    forall i: nat, k: nat, r: Ref | Names(w, i, k, r) ensures r in w.mem + w.locked && (r in w.jobs ==> !w.jobs[r].phase.Unqueued?) {
      NamedIsQueued(w, callers, i, k, r);
    }
  }

  /** A page carries the LRU flag if and only if one slot names it, below its queue's maximum, or
      the walk that has just won the flag is about to write that slot; and never two slots do. */
  lemma FlaggedMeansNamedOnce(w: World, callers: Callers, r: Ref)
    requires Reachable(w, callers)
    ensures r in w.flagged <==> r in Pending(w.visit) || exists i: nat, k: nat :: Names(w, i, k, r)
    ensures forall i: nat, k: nat, j: nat, l: nat :: Names(w, i, k, r) && Names(w, j, l, r) ==>
      i == j && k == l && k < w.queues[i].max && r !in Pending(w.visit)
  {
    hide Reachable, Bag, Structure, Memory, Unprotected, Searches, Locks, Busy, Progress, Conserved, Counts, Exclusive, Walks, Agree;
    ReachableInv(w, callers);
    NamedOnce(w.queues, w.visit, w.flagged, r);
    if r in w.flagged && r !in Pending(w.visit) {
      var i :| 0 <= i < 3 && r in BagOf(w.queues, i);
      BagMember(w.queues[i].slots, r);
      var k :| 0 <= k < |w.queues[i].slots| && w.queues[i].slots[k].ref == Some(r);
      assert Names(w, i, k, r);
    }
    forall i: nat, k: nat | Names(w, i, k, r) ensures r in w.flagged && r !in Pending(w.visit) {
      NamedIsQueued(w, callers, i, k, r);
    }
    forall i: nat, k: nat, j: nat, l: nat | Names(w, i, k, r) && Names(w, j, l, r) ensures i == j && k == l && k < w.queues[i].max {
      NamedIsQueued(w, callers, i, k, r);
      NamedIsQueued(w, callers, j, l, r);
      if k != l {
        BagTwice(w.queues[i].slots, if k < l then k else l, if k < l then l else k, r);
      }
    }
  }

  /** The search of an eviction that reaches the end of the last queue finds the flag clear: the
      assertion at the end of the per-page clear never fails. */
  lemma SearchEndsUnflagged(w: World, callers: Callers, r: Ref)
    requires Reachable(w, callers) && r in w.jobs && w.jobs[r].phase == Searching(3)
    ensures r !in w.flagged
  {
    hide Reachable, Inv;
    ReachableInv(w, callers);
    SearchedAll(w, callers, r);
  }

  /** A walk that has flagged a page writes an empty slot that exists, so it displaces nobody. */
  lemma WalkWritesEmptySlot(w: World, callers: Callers, score: nat)
    requires Reachable(w, callers) && w.visit.In? && w.visit.pending
    ensures |w.queues| == 3 && Guard(w, VisitWrite(score))
    ensures w.queues[w.server.q].slots[w.server.slot].ref.None?
  {
    hide Reachable, Bag, Filled, Memory, Unprotected, Searches, Locks, Busy, Progress, Conserved, Counts, Exclusive, Flags;
    ReachableInv(w, callers);
    FilledAt(w.queues, w.server, w.server.q);
    PushFills(w.queues[w.server.q], w.server.slot, w.visit.cursor.value, score);
    FilledLength(w.queues[w.server.q], w.server.slot);
  }

  lemma FilledLength(q: Queue, front: nat)
    requires Filled(q, front)
    ensures |q.slots| == EVICT_SLOTS
  {
    hide Bag;
  }

  // ---------------------------------------------------------------- the urgent queue

  /** Every urgent push is accounted for: the page is still queued ahead of the position, was handed
      out, was dropped by a take that could not lock it, or was cleared by its own eviction or with
      its tree.  Behind the position there is nothing. */
  lemma UrgentConserved(w: World, callers: Callers)
    requires Reachable(w, callers)
    ensures |w.queues| == 3 && UrgentReady(w.queues[2])
    ensures w.urgent.pushed == Bag(w.queues[2].slots) + w.urgent.handed + w.urgent.unlockable + w.urgent.byPage + w.urgent.byTree
    ensures Empty(w.queues[2]) ==> Bag(w.queues[2].slots) == multiset{}
  {
    hide Reachable, Bag, Filled, Memory, Unprotected, Searches, Locks, Busy, Progress, Counts, Exclusive, Flags, Walks;
    ReachableInv(w, callers);
    if Empty(w.queues[2]) {
      BagOfCleared(w.queues[2].slots);
    }
  }

  // ---------------------------------------------------------------- pages

  /** The actions between the worlds of a run. */
  ghost predicate Follows(run: seq<World>, acts: seq<Action>, callers: Callers) {
    && |run| == |acts| + 1
    && forall i :: 0 <= i < |acts| ==> |run[i].queues| == 3 && IsStep(run[i], acts[i], run[i + 1], callers)
  }

  function Came(a: Action): multiset<Ref> {
    if a.PageIn? then multiset{a.ref} else multiset{}
  }

  function Went(a: Action): multiset<Ref> {
    if a.JobDiscard? || a.CloseFree? then multiset{a.ref} else multiset{}
  }

  /** All pages ever read in, and all that were evicted or freed with their tree. */
  function AllCame(acts: seq<Action>): multiset<Ref> {
    if acts == [] then multiset{} else AllCame(acts[..|acts| - 1]) + Came(acts[|acts| - 1])
  }

  function AllWent(acts: seq<Action>): multiset<Ref> {
    if acts == [] then multiset{} else AllWent(acts[..|acts| - 1]) + Went(acts[|acts| - 1])
  }

  /** The pages there are, in memory or locked. */
  ghost function Pages(w: World): multiset<Ref> {
    multiset(w.mem) + multiset(w.locked)
  }

  /** Memory, locked references and evictions of two worlds. */
  ghost predicate Holds(w: World, mem: set<Ref>, locked: set<Ref>, jobs: set<Ref>) {
    w.mem == mem && w.locked == locked && w.jobs.Keys == jobs
  }

  lemma HandOutMoves(w: World, i: nat, half: bool, decline: set<Ref>, lockable: set<Ref>)
    requires |w.queues| == 3 && Guard(w, HandOut(i, half, decline, lockable))
    ensures i < 3 && ServerLimit(w.queues[i], half && i < 2) <= |w.queues[i].slots|
    ensures var t, w' := Take(w.queues[i], ServerLimit(w.queues[i], half && i < 2), decline, lockable), Next(w, HandOut(i, half, decline, lockable));
      && (t.handed.None? ==> Holds(w', w.mem, w.locked, w.jobs.Keys))
      && (t.handed.Some? ==> var r := t.handed.value; r in w.mem && Holds(w', w.mem - {r}, w.locked + {r}, w.jobs.Keys + {r}))
  {
    hide Bag, Dropped, ClearRange, Gone, Holds, HandedOut;
    var q := w.queues[i];
    var t := Take(q, ServerLimit(q, half && i < 2), decline, lockable);
    HandedMoves(w, i, t);
    hide Take;
  }

  lemma HandedMoves(w: World, i: nat, t: Taken)
    requires i < |w.queues| && (w.queues[i].current.Some? ==> w.queues[i].current.value <= t.end <= |w.queues[i].slots|)
    ensures t.handed.None? ==> Holds(HandedOut(w, i, t), w.mem, w.locked, w.jobs.Keys)
    ensures t.handed.Some? ==> var r := t.handed.value; Holds(HandedOut(w, i, t), w.mem - {r}, w.locked + {r}, w.jobs.Keys + {r})
  {
    hide Bag, Dropped, Gone;
  }

  lemma LockMoves(w: World, r: Ref)
    requires |w.queues| == 3 && Guard(w, ForceLock(r))
    ensures Holds(Next(w, ForceLock(r)), w.mem - {r}, w.locked + {r}, w.jobs.Keys + {r})
  {
  }

  lemma EndMoves(w: World, r: Ref, a: Action)
    requires |w.queues| == 3 && (a == JobDiscard(r) || a == JobFail(r)) && Guard(w, a)
    ensures Holds(Next(w, a), if a.JobFail? then w.mem + {r} else w.mem, w.locked - {r}, w.jobs.Keys - {r})
  {
  }

  lemma ReadMoves(w: World, r: Ref)
    requires |w.queues| == 3 && Guard(w, PageIn(r))
    ensures Holds(Next(w, PageIn(r)), w.mem + {r}, w.locked, w.jobs.Keys)
  {
  }

  lemma FreeMoves(w: World, r: Ref)
    requires |w.queues| == 3 && Guard(w, CloseFree(r))
    ensures Holds(Next(w, CloseFree(r)), w.mem - {r}, w.locked, w.jobs.Keys)
  {
    hide Hazard;
  }

  lemma OnStays(w: World, a: Action)
    requires |w.queues| == 3 && Guard(w, a) && (a.OnLoad? || a.OnStore? || a.OnDrained?)
    ensures Holds(Next(w, a), w.mem, w.locked, w.jobs.Keys)
  {
  }

  lemma OffStays(w: World, a: Action)
    requires |w.queues| == 3 && Guard(w, a) && (a.OnLockQueues? || a.Off?)
    ensures Holds(Next(w, a), w.mem, w.locked, w.jobs.Keys)
  {
  }

  lemma OnWalkStays(w: World, ok: bool)
    requires |w.queues| == 3 && Guard(w, OnClearWalk(ok))
    ensures Holds(Next(w, OnClearWalk(ok)), w.mem, w.locked, w.jobs.Keys)
  {
  }

  lemma OnClearStays(w: World)
    requires |w.queues| == 3 && Guard(w, OnClearQueue)
    ensures Holds(Next(w, OnClearQueue), w.mem, w.locked, w.jobs.Keys)
  {
    hide Bag, TreeBag, ClearTree, Gone;
  }

  lemma ServerStays(w: World, a: Action)
    requires |w.queues| == 3 && Guard(w, a)
    requires a.ServerBegin? || a.ServerPublish? || a.ServerSort? || a.ServerGiveUp?
    ensures Holds(Next(w, a), w.mem, w.locked, w.jobs.Keys)
  {
    hide Refill, IsSorting, Gone;
  }

  lemma ReaderStays(w: World, a: Action)
    requires |w.queues| == 3 && Guard(w, a) && (a.Acquire? || a.Release? || a.UrgentPush? || a.UrgentRewind?)
    ensures Holds(Next(w, a), w.mem, w.locked, w.jobs.Keys)
  {
    hide Urgent, Rewind, Hazard;
  }

  lemma WalkStays(w: World, a: Action)
    requires |w.queues| == 3 && Guard(w, a)
    requires a.VisitBegin? || a.VisitMove? || a.VisitFlag? || a.VisitWrite? || a.VisitEnd?
    ensures Holds(Next(w, a), w.mem, w.locked, w.jobs.Keys)
  {
    hide Push;
  }

  lemma JobStays(w: World, a: Action)
    requires |w.queues| == 3 && Guard(w, a)
    requires a.ForceCount? || a.JobCheck? || a.JobSearch?
    ensures Holds(Next(w, a), w.mem, w.locked, w.jobs.Keys)
  {
    hide Hazard;
  }

  lemma StepStays(w: World, r: Ref)
    requires |w.queues| == 3 && Guard(w, JobStep(r))
    ensures Holds(Next(w, JobStep(r)), w.mem, w.locked, w.jobs.Keys)
  {
    hide Bag, ClearRef, Gone;
  }

  predicate MovesPages(a: Action) {
    a.HandOut? || a.ForceLock? || a.JobDiscard? || a.JobFail? || a.PageIn? || a.CloseFree?
  }

  lemma OthersStay(w: World, a: Action)
    requires |w.queues| == 3 && Guard(w, a) && !MovesPages(a)
    ensures Holds(Next(w, a), w.mem, w.locked, w.jobs.Keys)
  {
    hide Guard, Next, Holds;
    if a.ServerBegin? || a.ServerPublish? || a.ServerSort? || a.ServerGiveUp? {
      ServerStays(w, a);
    } else if a.Acquire? || a.Release? || a.UrgentPush? || a.UrgentRewind? {
      ReaderStays(w, a);
    } else if a.VisitBegin? || a.VisitMove? || a.VisitFlag? || a.VisitWrite? || a.VisitEnd? {
      WalkStays(w, a);
    } else if a.ForceCount? || a.JobCheck? || a.JobSearch? {
      JobStays(w, a);
    } else if a.JobStep? {
      StepStays(w, a.ref);
    } else if a.OnClearQueue? {
      OnClearStays(w);
    } else if a.OnClearWalk? {
      OnWalkStays(w, a.ok);
    } else if a.OnLoad? || a.OnStore? || a.OnDrained? {
      OnStays(w, a);
    } else {
      OffStays(w, a);
    }
  }

  lemma Locking(w: World, w': World, r: Ref)
    requires r in w.mem && r !in w.locked && Holds(w', w.mem - {r}, w.locked + {r}, w.locked + {r})
    ensures Pages(w') == Pages(w) && w'.locked == w'.jobs.Keys
  {
  }

  lemma Unlocking(w: World, w': World, r: Ref)
    requires r !in w.mem && r in w.locked && Holds(w', w.mem + {r}, w.locked - {r}, w.locked - {r})
    ensures Pages(w') == Pages(w) && w'.locked == w'.jobs.Keys
  {
  }

  lemma Leaving(w: World, w': World, r: Ref)
    requires (r in w.mem && Holds(w', w.mem - {r}, w.locked, w.locked)) || (r in w.locked && Holds(w', w.mem, w.locked - {r}, w.locked - {r}))
    ensures Pages(w') + multiset{r} == Pages(w) && w'.locked == w'.jobs.Keys
  {
  }

  lemma Entering(w: World, w': World, r: Ref)
    requires r !in w.mem && Holds(w', w.mem + {r}, w.locked, w.locked)
    ensures Pages(w') == Pages(w) + multiset{r} && w'.locked == w'.jobs.Keys
  {
  }

  lemma Staying(w: World, w': World)
    requires Holds(w', w.mem, w.locked, w.locked)
    ensures Pages(w') == Pages(w) && w'.locked == w'.jobs.Keys
  {
  }

  lemma Subjects(w: World, a: Action)
    requires |w.queues| == 3 && Guard(w, a)
    ensures a.ForceLock? || a.CloseFree? ==> a.ref in w.mem
    ensures a.PageIn? ==> a.ref !in w.mem
    ensures a.JobDiscard? || a.JobFail? ==> a.ref in w.jobs
  {
    hide Hazard;
  }

  lemma EndMovesPages(w: World, r: Ref, a: Action)
    requires |w.queues| == 3 && (a == JobDiscard(r) || a == JobFail(r)) && Guard(w, a) && w.mem !! w.locked && w.locked == w.jobs.Keys
    ensures Pages(Next(w, a)) + Went(a) == Pages(w) && Next(w, a).locked == Next(w, a).jobs.Keys
  {
    hide Guard, Next, Holds, Pages;
    EndMoves(w, r, a);
    Subjects(w, a);
    if a.JobFail? {
      Unlocking(w, Next(w, a), r);
    } else {
      Leaving(w, Next(w, a), r);
    }
  }

  lemma HandOutKeepsPages(w: World, i: nat, half: bool, decline: set<Ref>, lockable: set<Ref>)
    requires |w.queues| == 3 && Guard(w, HandOut(i, half, decline, lockable)) && w.mem !! w.locked && w.locked == w.jobs.Keys
    ensures var w' := Next(w, HandOut(i, half, decline, lockable)); Pages(w') == Pages(w) && w'.locked == w'.jobs.Keys
  {
    hide Guard, Next, Holds, Pages, Take;
    HandOutMoves(w, i, half, decline, lockable);
    var t, w' := Take(w.queues[i], ServerLimit(w.queues[i], half && i < 2), decline, lockable), Next(w, HandOut(i, half, decline, lockable));
    if t.handed.Some? {
      Locking(w, w', t.handed.value);
    } else {
      Staying(w, w');
    }
  }

  /** Every step moves pages between memory and locked, but for those read in, evicted or freed; and
      the locked pages are those an eviction holds. */
  lemma StepMoves(w: World, a: Action)
    requires |w.queues| == 3 && Guard(w, a) && w.mem !! w.locked && w.locked == w.jobs.Keys
    ensures Pages(Next(w, a)) + Went(a) == Pages(w) + Came(a)
    ensures Next(w, a).locked == Next(w, a).jobs.Keys
  {
    hide Guard, Next, Holds, Pages;
    var w' := Next(w, a);
    Subjects(w, a);
    if !MovesPages(a) {
      OthersStay(w, a);
      Staying(w, w');
    } else {
      match a
      case HandOut(i, half, decline, lockable) =>
        HandOutKeepsPages(w, i, half, decline, lockable);
      case ForceLock(r) =>
        LockMoves(w, r);
        Locking(w, w', r);
      case JobDiscard(r) => EndMovesPages(w, r, a);
      case JobFail(r) => EndMovesPages(w, r, a);
      case PageIn(r) =>
        ReadMoves(w, r);
        Entering(w, w', r);
      case CloseFree(r) =>
        FreeMoves(w, r);
        Leaving(w, w', r);
    }
  }

  /** The pages there are are those read in and not yet evicted or freed, each once, and the locked
      ones are those an eviction holds. */
  lemma {:induction false} PagesConserved(run: seq<World>, acts: seq<Action>, callers: Callers)
    requires IsRun(run, callers) && Follows(run, acts, callers)
    ensures var w := run[|run| - 1]; AllCame(acts) == AllWent(acts) + Pages(w) && w.locked == w.jobs.Keys && w.mem !! w.locked
  {
    hide Inv, Guard, Next, Pages;
    if acts == [] {
      NonePaged(run[0]);
      assert AllWent(acts) == multiset{};
    } else {
      var w, a := run[|run| - 2], acts[|acts| - 1];
      assert run[..|run| - 1][|acts| - 1] == w;
      PagesConserved(run[..|run| - 1], acts[..|acts| - 1], callers);
      assert IsStep(w, a, run[|acts|], callers);
      StepMoves(w, a);
      Even(AllCame(acts[..|acts| - 1]), AllWent(acts[..|acts| - 1]), Pages(w), Pages(run[|acts|]), Came(a), Went(a));
    }
    RunsKeep(run, callers);
    ApartIn(run[|run| - 1], callers);
  }

  lemma Even<T>(came: multiset<T>, went: multiset<T>, before: multiset<T>, after: multiset<T>, c: multiset<T>, g: multiset<T>)
    requires came == went + before && after + g == before + c
    ensures came + c == (went + g) + after
  {
    assert (went + g) + after == went + (after + g);
  }

  lemma NonePaged(w: World)
    requires Init(w)
    ensures Pages(w) == multiset{} && w.locked == w.jobs.Keys
  {
  }

  lemma ApartIn(w: World, callers: Callers)
    requires Inv(w, callers)
    ensures w.mem !! w.locked
  {
    hide Structure, Flags, Searches, Locks, Busy, Progress, Counts, Exclusive, Walks, Conserved, Unprotected;
  }

  // ---------------------------------------------------------------- runs, step by step

  lemma ReachableNext(w: World, a: Action, callers: Callers) returns (w': World)
    requires Reachable(w, callers) && |w.queues| == 3 && Enabled(w, a, callers)
    ensures w' == Next(w, a) && Reachable(w', callers)
  {
    hide Guard, Next, Init;
    var run :| IsRun(run, callers) && run[|run| - 1] == w;
    w' := Next(w, a);
    var run' := run + [w'];
    assert run'[..|run'| - 1] == run;
    assert IsStep(w, a, w', callers);
    assert IsRun(run', callers);
  }

  /** Page `r` is in memory, somebody reads it, and nothing else goes on but requests for trees. */
  ghost predicate OnlyReader(w: World, r: Ref) {
    && |w.queues| == 3 && w.queueLock.Unlocked? && w.visit.NoVisit? && w.walkPoint == map[]
    && w.mem == {r} && w.locked == {} && w.readers == multiset{r} && w.busy == map[] && w.flagged == {}
    && w.queues[2].current.None? && |w.queues[2].slots| == EVICT_SLOTS
  }

  lemma Booted(callers: Callers) returns (w: World)
    ensures Reachable(w, callers) && Init(w) && w.queues[2].current.None? && |w.queues[2].slots| == EVICT_SLOTS
  {
    hide Bag, Shape, Enabled, Next;
    var q := Queue(seq(EVICT_SLOTS, _ => Entry(None, None, 0)), None, 0, 0, 0);
    NewReady(q);
    w := World([q, q, q], {}, {}, {}, multiset{}, map[], Resting, NoVisit, Open, Unlocked, map[], map[], map[], map[],
               Log(multiset{}, multiset{}, multiset{}, multiset{}, multiset{}));
    assert IsRun([w], callers) && [w][|[w]| - 1] == w;
  }

  lemma NewReady(q: Queue)
    requires q == Queue(q.slots, None, 0, 0, 0) && |q.slots| == EVICT_SLOTS
    requires forall k :: 0 <= k < |q.slots| ==> q.slots[k].ref.None? && q.slots[k].btree.None?
    ensures Ready(q)
  {
  }

  lemma FirstReader(r: Ref, callers: Callers) returns (w: World)
    ensures Reachable(w, callers) && OnlyReader(w, r) && w.gate.Open? && w.disabled == map[] && w.holders == map[]
  {
    hide Bag, Reachable, Ready;
    w := Booted(callers);
    w := ReachableNext(w, PageIn(r), callers);
    w := ReachableNext(w, Acquire(r), callers);
  }

  lemma Load(w: World, r: Ref, t: nat, callers: Callers) returns (w': World)
    requires Reachable(w, callers) && OnlyReader(w, r) && w.gate.Open?
    ensures w' == w.(gate := Switching(t, Loaded(Count(w.disabled, t)))) && Reachable(w', callers)
  {
    hide Reachable;
    w' := ReachableNext(w, OnLoad(t), callers);
  }

  lemma Store(w: World, callers: Callers) returns (w': World)
    requires Reachable(w, callers) && |w.queues| == 3 && Intact(w) && w.gate.Switching? && w.gate.phase.Loaded?
    ensures w' == RaisedTo(w, w.gate.tree, w.gate.phase.v + 1) && Reachable(w', callers)
  {
    hide Reachable, RaisedTo;
    w' := ReachableNext(w, OnStore, callers);
  }

  lemma Drop(w: World, t: nat, callers: Callers) returns (w': World)
    requires Reachable(w, callers) && |w.queues| == 3 && Intact(w) && Count(w.holders, t) > 0 && MayRelease(w, t, callers)
    ensures w' == w.(disabled := Add(w.disabled, t, -1), holders := Add(w.holders, t, -1)) && Reachable(w', callers)
  {
    hide Reachable, MayRelease, Add;
    w' := ReachableNext(w, Off(t), callers);
  }

  /** One thread turns eviction off for `t`, undisturbed. */
  lemma TurnOff(w: World, r: Ref, t: nat, callers: Callers) returns (w': World)
    requires Reachable(w, callers) && OnlyReader(w, r) && w.gate.Open? && Count(w.disabled, t) == 0
    ensures Reachable(w', callers) && OnlyReader(w', r) && w'.gate.Open?
    ensures Count(w'.disabled, t) == 1 && Count(w'.holders, t) == Count(w.holders, t) + 1
  {
    hide Reachable, Guard, Enabled, Next;
    w' := Load(w, r, t, callers);
    w' := Store(w', callers);
    w' := TurnOffWalk(w', r, t, callers);
    w' := TurnOffQueues(w', r, t, callers);
  }

  lemma TurnOffWalk(w: World, r: Ref, t: nat, callers: Callers) returns (w': World)
    requires Reachable(w, callers) && OnlyReader(w, r) && w.gate == Switching(t, Raised)
    ensures Reachable(w', callers) && OnlyReader(w'.(queueLock := Unlocked), r) && w'.gate == Switching(t, Clearing(0))
    ensures w'.disabled == w.disabled && w'.holders == w.holders
  {
    hide Reachable;
    w' := ReachableNext(w, OnClearWalk(true), callers);
    assert w'.walkPoint == map[];
    w' := ReachableNext(w', OnLockQueues, callers);
  }

  lemma TurnOffQueues(w: World, r: Ref, t: nat, callers: Callers) returns (w': World)
    requires Reachable(w, callers) && OnlyReader(w.(queueLock := Unlocked), r) && w.gate == Switching(t, Clearing(0))
    ensures Reachable(w', callers) && OnlyReader(w', r) && w'.gate.Open?
    ensures w'.disabled == w.disabled && w'.holders == Add(w.holders, t, 1)
  {
    hide Reachable, Add, Guard, Enabled, Next;
    w' := TurnOffQueue(w, r, t, callers);
    w' := TurnOffQueue(w', r, t, callers);
    w' := TurnOffQueue(w', r, t, callers);
    w' := TurnOffDrained(w', r, t, callers);
  }

  lemma TurnOffQueue(w: World, r: Ref, t: nat, callers: Callers) returns (w': World)
    requires Reachable(w, callers) && OnlyReader(w.(queueLock := Unlocked), r)
    requires w.gate.Switching? && w.gate.tree == t && w.gate.phase.Clearing? && w.gate.phase.k < 3
    ensures Reachable(w', callers) && OnlyReader(w'.(queueLock := Unlocked), r)
    ensures w'.disabled == w.disabled && w'.holders == w.holders
    ensures if w.gate.phase.k < 2 then w'.gate == Switching(t, Clearing(w.gate.phase.k + 1))
            else w'.gate == Switching(t, Draining) && w'.queueLock.Unlocked?
  {
    hide Reachable, Bag, TreeBag, ClearTree;
    w' := ReachableNext(w, OnClearQueue, callers);
  }

  lemma TurnOffDrained(w: World, r: Ref, t: nat, callers: Callers) returns (w': World)
    requires Reachable(w, callers) && OnlyReader(w, r) && w.gate == Switching(t, Draining)
    ensures Reachable(w', callers) && OnlyReader(w', r) && w'.gate.Open?
    ensures w'.disabled == w.disabled && w'.holders == Add(w.holders, t, 1)
  {
    hide Reachable, Add;
    w' := ReachableNext(w, OnDrained, callers);
  }

  // ---------------------------------------------------------------- what a release in between does

  /** The last release of a tree can fall between another request's read and store of the count: the
      request returns while a page of the tree, queued meanwhile, is still there. */
  lemma StoreLosesRelease() returns (w: World, r: Ref)
    ensures Reachable(w, Any) && !Safe(w)
    ensures |w.queues| == 3 && Names(w, 2, 0, r) && Count(w.holders, r.tree) > 0
    ensures w.visit.NoVisit? && w.walkPoint == map[] && w.mem == {r} && w.locked == {} && w.flagged == {r} && w.readers == multiset{r}
  {
    hide Reachable, Bag, Enabled, Guard, Next;
    r := Ref(0, 0);
    w := FirstReader(r, Any);
    w := TurnOff(w, r, 0, Any);
    w := Load(w, r, 0, Any);
    w := Drop(w, 0, Any);
    w := QueuedAndReturned(w, r);
    assert !Excluded(w, 0);
  }

  /** A page is queued as urgent meanwhile, and the second request returns. */
  lemma QueuedAndReturned(w: World, r: Ref) returns (w': World)
    requires Reachable(w, Any) && OnlyReader(w, r) && w.gate == Switching(r.tree, Loaded(1))
    requires Count(w.disabled, r.tree) == 0 && Count(w.holders, r.tree) == 0
    ensures Reachable(w', Any) && Names(w', 2, 0, r) && Count(w'.holders, r.tree) > 0 && |w'.queues| == 3
    ensures w'.visit == w.visit && w'.walkPoint == w.walkPoint && w'.mem == w.mem && w'.locked == w.locked
    ensures w'.flagged == {r} && w'.readers == w.readers
  {
    hide Reachable, Bag;
    w' := ReachableNext(w, UrgentPush(r, 0), Any);
    w' := Store(w', Any);
  }

  /** Exclusive access excludes in every interleaving exactly when callers keep the last release of a
      tree out of other requests. */
  lemma SafeExactly(callers: Callers)
    ensures (forall w :: Reachable(w, callers) ==> Safe(w)) <==> !callers.Any?
  {
    hide Reachable, Excluded;
    if callers.Any? {
      var w, r := StoreLosesRelease();
    } else {
      forall w | Reachable(w, callers) ensures Safe(w) {
        forall t | Count(w.holders, t) > 0 ensures Excluded(w, t) {
          ExclusiveAccess(w, callers, t);
        }
      }
    }
  }

  /** The run goes on: whoever was told that eviction is off closes the tree and frees the page. */
  lemma FreedWhileQueued() returns (w: World)
    ensures Reachable(w, Any) && !NoneDangles(w)
  {
    hide Reachable, Bag;
    var r;
    w, r := StoreLosesRelease();
    w := ReachableNext(w, Release(r), Any);
    w := ReachableNext(w, CloseFree(r), Any);
    assert Names(w, 2, 0, r);
  }

  lemma NoneDanglesExactly(callers: Callers)
    ensures (forall w :: Reachable(w, callers) ==> NoneDangles(w)) <==> !callers.Any?
  {
    hide Reachable, NoneDangles;
    if callers.Any? {
      var w := FreedWhileQueued();
    } else {
      forall w | Reachable(w, callers) ensures NoneDangles(w) {
        NoDanglingEntry(w, callers);
      }
    }
  }

  /** A release that is not the last one does no harm to exclusion when it falls in between, but its
      decrement is lost: the count is too high from then on. */
  lemma ReleaseIsLost(callers: Callers) returns (w: World)
    requires !callers.Serial?
    ensures Reachable(w, callers) && !Balanced(w)
  {
    hide Reachable, Enabled, Guard, Next;
    var r := Ref(0, 0);
    w := FirstReader(r, callers);
    w := TurnOff(w, r, 0, callers);
    w := Load(w, r, 0, callers);
    w := Store(w, callers);
    w := Load(w, r, 0, callers);
    w := Drop(w, 0, callers);
    w := Store(w, callers);
    assert Requests(w.gate, 0) == 0 && Count(w.disabled, 0) == 3 && Count(w.holders, 0) == 2;
  }

  /** The count is right in every interleaving exactly when no release falls in between. */
  lemma BalancedExactly(callers: Callers)
    ensures (forall w :: Reachable(w, callers) ==> Balanced(w)) <==> callers.Serial?
  {
    hide Reachable, Balanced;
    if callers.Serial? {
      forall w | Reachable(w, callers) ensures Balanced(w) {
        SerialIsBalanced(w);
      }
    } else {
      var w := ReleaseIsLost(callers);
    }
  }
}
