/** What every reachable world of `EvictProtocol` satisfies.  Queues, flags, searches, locks and the
    urgent log are in order in every run; what turns on the disabled counts needs callers that keep
    the last release of a tree out of another request's read and store. */
module EvictInvariant {
  import opened Options
  import opened LruQueue
  import opened QueueRefill
  import opened EvictProtocol

  function BagOf(qs: seq<Queue>, i: nat): multiset<Ref>
    requires i < |qs|
  {
    Bag(qs[i].slots)
  }

  /** Everything queued, in all three queues. */
  function Queued(qs: seq<Queue>): multiset<Ref>
    requires |qs| == 3
  {
    BagOf(qs, 0) + BagOf(qs, 1) + BagOf(qs, 2)
  }

  function Pending(visit: Visit): multiset<Ref> {
    if visit.In? && visit.pending && visit.cursor.Some? then multiset{visit.cursor.value} else multiset{}
  }

  /** The first slot of ordinary queue `i` the walk has not filled. */
  function Front(qs: seq<Queue>, server: Server, i: nat): nat
    requires i < |qs|
  {
    if server.Filling? && server.q == i then server.slot else qs[i].entries
  }

  ghost predicate Filled(q: Queue, front: nat) {
    && Shape(q) && |q.slots| == EVICT_SLOTS
    && q.candidates <= q.entries <= front <= q.max
    && forall k :: front <= k < |q.slots| ==> q.slots[k].ref.None?
  }

  ghost predicate Appended(q: Queue) {
    UrgentReady(q) && |q.slots| == EVICT_SLOTS
  }

  ghost predicate Structure(qs: seq<Queue>, server: Server) {
    && |qs| == 3
    && Filled(qs[0], Front(qs, server, 0)) && Filled(qs[1], Front(qs, server, 1)) && Appended(qs[2])
    && (server.Filling? ==> server.q < 2)
    && (server.Sorting? ==> server.q < 2)
  }

  /** A page is flagged exactly when one slot names it or the walk is about to write that slot. */
  ghost predicate Flags(qs: seq<Queue>, visit: Visit, flagged: set<Ref>)
    requires |qs| == 3
  {
    Agree(Queued(qs) + Pending(visit), flagged)
  }

  ghost predicate Protected(readers: multiset<Ref>, visit: Visit, walkPoint: map<nat, Ref>, r: Ref) {
    || r in readers
    || (visit.In? && visit.cursor == Some(r))
    || (r.tree in walkPoint && walkPoint[r.tree] == r)
  }

  /** Whatever is protected by a hazard pointer has its page in memory; and whatever is flagged, if
      the callers are careful. */
  ghost predicate Memory(callers: Callers, mem: set<Ref>, locked: set<Ref>, flagged: set<Ref>, readers: multiset<Ref>, visit: Visit, walkPoint: map<nat, Ref>) {
    && mem !! locked
    && (!callers.Any? ==> flagged <= mem + locked)
    && (forall r :: Protected(readers, visit, walkPoint, r) ==> r in mem + locked)
  }

  /** A walk stays inside its tree. */
  ghost predicate Walks(visit: Visit, walkPoint: map<nat, Ref>, server: Server, gate: Gate) {
    && (gate.Walking? <==> visit.In?)
    && (visit.In? ==> server.Filling?)
    && (visit.In? && visit.cursor.Some? ==> visit.cursor.value.tree == visit.tree)
    && (visit.In? && visit.pending ==> visit.cursor.Some? && server.Filling? && server.slot < EVICT_SLOTS)
    && (forall t :: t in walkPoint ==> walkPoint[t].tree == t)
  }

  /** From the hazard check on no hazard pointer protects a locked page, so nobody can queue it. */
  ghost predicate Unprotected(jobs: map<Ref, Job>, locked: set<Ref>, readers: multiset<Ref>, visit: Visit, walkPoint: map<nat, Ref>) {
    forall r :: r in jobs ==>
      && r in locked
      && (jobs[r].lru ==> jobs[r].counted)
      && (!jobs[r].phase.Grabbed? ==> jobs[r].counted && !Protected(readers, visit, walkPoint, r))
  }

  /** How far the search of each eviction has got. */
  ghost predicate Searches(jobs: map<Ref, Job>, qs: seq<Queue>, flagged: set<Ref>)
    requires |qs| == 3
  {
    forall r :: r in jobs ==>
      && (jobs[r].phase.Searching? ==> jobs[r].phase.k <= 3 && forall i :: 0 <= i < jobs[r].phase.k ==> r !in BagOf(qs, i))
      && (jobs[r].phase.Unqueued? ==> r !in flagged)
  }

  ghost predicate Locks(jobs: map<Ref, Job>, queueLock: QueueLock, gate: Gate) {
    && (forall r :: r in jobs && jobs[r].phase.Searching? ==> queueLock == ByJob(r))
    && (queueLock.BySwitch? <==> gate.Switching? && gate.phase.Clearing?)
  }

  function CountedOf(jobs: map<Ref, Job>, t: nat): set<Ref> {
    set r | r in jobs && jobs[r].counted && r.tree == t
  }

  ghost predicate Busy(jobs: map<Ref, Job>, busy: map<nat, int>) {
    forall t :: Count(busy, t) == |CountedOf(jobs, t)|
  }

  /** 1 if the first request for `t` is in progress, its count stored. */
  function Requests(gate: Gate, t: nat): int {
    if gate.Switching? && gate.tree == t && !gate.phase.Loaded? then 1 else 0
  }

  /** The disabled count covers the completed requests and the one in progress, which is then the
      only one.  It may be too high, but not while every release keeps out of other requests. */
  ghost predicate Counts(callers: Callers, holders: map<nat, int>, disabled: map<nat, int>, gate: Gate, visit: Visit) {
    && (forall t :: Count(holders, t) >= 0)
    && (!callers.Any? ==>
          && (forall t :: Count(disabled, t) >= Count(holders, t) + Requests(gate, t))
          && (gate.Switching? && !gate.phase.Loaded? ==> Count(disabled, gate.tree) == 1)
          && (gate.Switching? && gate.phase.Loaded? ==>
                gate.phase.v >= Count(disabled, gate.tree) && (gate.phase.v > 0 ==> Count(disabled, gate.tree) > 0))
          && (visit.In? ==> Count(disabled, visit.tree) == 0))
    && (callers.Serial? ==>
          && (forall t :: Count(disabled, t) == Count(holders, t) + Requests(gate, t))
          && (gate.Switching? && gate.phase.Loaded? ==> gate.phase.v == Count(disabled, gate.tree)))
  }

  ghost predicate Absent(b: multiset<Ref>, t: nat) {
    forall r :: r in b ==> r.tree != t
  }

  /** Eviction is really off for `t`: no queue names one of its pages, the walk keeps no place in
      it, and no page of it that was handed out is still being evicted. */
  ghost predicate TurnedOff(qs: seq<Queue>, walkPoint: map<nat, Ref>, jobs: map<Ref, Job>, t: nat)
    requires |qs| == 3
  {
    && (forall i :: 0 <= i < 3 ==> Absent(BagOf(qs, i), t))
    && t !in walkPoint
    && (forall r :: r in jobs && jobs[r].lru ==> r.tree != t)
  }

  /** The count of `t` is raised and the first request for it is not still in progress. */
  ghost predicate SwitchedOff(disabled: map<nat, int>, gate: Gate, t: nat) {
    Count(disabled, t) > 0 && Requests(gate, t) == 0
  }

  ghost predicate Exclusive(callers: Callers, qs: seq<Queue>, walkPoint: map<nat, Ref>, jobs: map<Ref, Job>, disabled: map<nat, int>, gate: Gate)
    requires |qs| == 3
  {
    callers.Any? || forall t :: SwitchedOff(disabled, gate, t) ==> TurnedOff(qs, walkPoint, jobs, t)
  }

  /** How far the thread turning eviction off has got. */
  ghost predicate Progress(callers: Callers, qs: seq<Queue>, walkPoint: map<nat, Ref>, gate: Gate)
    requires |qs| == 3
  {
    !callers.Any? && gate.Switching? ==>
      && (gate.phase.WalkCleared? || gate.phase.Clearing? || gate.phase.Draining? ==> gate.tree !in walkPoint)
      && (gate.phase.Clearing? ==> gate.phase.k < 3 && forall i :: 0 <= i < gate.phase.k ==> Absent(BagOf(qs, i), gate.tree))
      && (gate.phase.Draining? ==> forall i :: 0 <= i < 3 ==> Absent(BagOf(qs, i), gate.tree))
  }

  /** Every page ever pushed as urgent is still queued, was handed out, was dropped by a take that
      could not lock it, or was cleared by its own eviction or with its tree. */
  ghost predicate Conserved(qs: seq<Queue>, urgent: Log)
    requires |qs| == 3
  {
    urgent.pushed == BagOf(qs, 2) + urgent.handed + urgent.unlockable + urgent.byPage + urgent.byTree
  }

  ghost predicate Inv(w: World, callers: Callers) {
    && |w.queues| == 3
    && Structure(w.queues, w.server)
    && Flags(w.queues, w.visit, w.flagged)
    && Memory(callers, w.mem, w.locked, w.flagged, w.readers, w.visit, w.walkPoint)
    && Walks(w.visit, w.walkPoint, w.server, w.gate)
    && Unprotected(w.jobs, w.locked, w.readers, w.visit, w.walkPoint)
    && Searches(w.jobs, w.queues, w.flagged)
    && Locks(w.jobs, w.queueLock, w.gate)
    && Busy(w.jobs, w.busy)
    && Counts(callers, w.holders, w.disabled, w.gate, w.visit)
    && Exclusive(callers, w.queues, w.walkPoint, w.jobs, w.disabled, w.gate)
    && Progress(callers, w.queues, w.walkPoint, w.gate)
    && Conserved(w.queues, w.urgent)
  }

  // ---------------------------------------------------------------- initially

  lemma InitHolds(w: World, callers: Callers)
    requires Init(w)
    ensures Inv(w, callers)
  {
    forall i | 0 <= i < 3 ensures BagOf(w.queues, i) == multiset{} {
      BagOfCleared(w.queues[i].slots);
    }
    hide Bag;
    assert forall t :: CountedOf(w.jobs, t) == {};
  }

  // ---------------------------------------------------------------- one queue under the steps

  /** A queue some of whose entries were removed in place. */
  ghost predicate Thinner(qs: seq<Queue>, server: Server, i: nat, q: Queue)
    requires |qs| == 3 && i < 3
  {
    && Bag(q.slots) <= BagOf(qs, i)
    && (i < 2 ==> Filled(q, if server.Filling? && server.q == i then server.slot else q.entries))
    && (i == 2 ==> Appended(q))
  }

  lemma FilledClears(q: Queue, front: nat, r: Ref, t: nat)
    requires Filled(q, front)
    ensures Filled(q.(slots := ClearRef(q.slots, q.max, r)), front)
    ensures Filled(q.(slots := ClearTree(q.slots, q.max, t)), front)
  {
  }

  lemma FilledTakes(q: Queue, front: nat, limit: nat, decline: set<Ref>, mem: set<Ref>)
    requires Filled(q, front) && limit <= q.candidates
    ensures Filled(Take(q, limit, decline, mem).queue, front)
  {
    hide Bag;
    TakeBag(q, limit, decline, mem);
  }

  lemma HandOutThins(qs: seq<Queue>, server: Server, i: nat, half: bool, decline: set<Ref>, lockable: set<Ref>)
    requires Structure(qs, server) && i < 3
    ensures var t := Take(qs[i], ServerLimit(qs[i], half && i < 2), decline, lockable);
      && Thinner(qs, server, i, t.queue)
      && (qs[i].current.Some? ==> qs[i].current.value <= t.end <= |qs[i].slots|)
      && BagOf(qs, i) == Bag(t.queue.slots) + Dropped(qs[i], t) + Handed(t)
      && (t.handed.Some? ==> t.handed.value in lockable && t.handed.value in BagOf(qs, i) - Bag(t.queue.slots))
  {
    hide Bag, Dropped, ClearRange, WellTagged;
    var q := qs[i];
    var limit := ServerLimit(q, half && i < 2);
    var t := Take(q, limit, decline, lockable);
    TakeBag(q, limit, decline, lockable);
    assert Bag(q.slots) - Bag(t.queue.slots) == Dropped(q, t) + Handed(t);
    if i == 2 {
      UrgentTakes(q, decline, lockable);
    } else {
      FilledTakes(q, Front(qs, server, i), limit, decline, lockable);
    }
  }

  lemma ClearRefThins(qs: seq<Queue>, server: Server, i: nat, r: Ref)
    requires Structure(qs, server) && i < 3
    ensures Thinner(qs, server, i, qs[i].(slots := ClearRef(qs[i].slots, qs[i].max, r)))
    ensures Bag(ClearRef(qs[i].slots, qs[i].max, r)) == BagOf(qs, i) - multiset{r}
  {
    hide Bag, ClearRef, ClearTree, WellTagged;
    var q := qs[i];
    ClearRefBag(q.slots, q.max, r);
    if i == 2 {
      ClearsKeepUrgent(q, r, 0);
    } else {
      FilledClears(q, Front(qs, server, i), r, 0);
    }
  }

  lemma ClearTreeThins(qs: seq<Queue>, server: Server, i: nat, t: nat)
    requires Structure(qs, server) && i < 3
    ensures Thinner(qs, server, i, qs[i].(slots := ClearTree(qs[i].slots, qs[i].max, t)))
    ensures Absent(Bag(ClearTree(qs[i].slots, qs[i].max, t)), t)
    ensures BagOf(qs, i) == Bag(ClearTree(qs[i].slots, qs[i].max, t)) + TreeBag(qs[i].slots, t)
  {
    hide Bag, TreeBag, ClearRef, ClearTree, WellTagged;
    var q := qs[i];
    ClearTreeSplits(q.slots, q.max, t);
    forall r ensures Bag(ClearTree(q.slots, q.max, t))[r] == if r.tree == t then 0 else Bag(q.slots)[r] {
      ClearTreeBag(q.slots, q.max, t, r);
    }
    if i == 2 {
      ClearsKeepUrgent(q, Ref(0, 0), t);
    } else {
      FilledClears(q, Front(qs, server, i), Ref(0, 0), t);
    }
  }

  lemma SortThins(qs: seq<Queue>, server: Server, sorted: seq<Entry>, debug: bool, aggressive: bool)
    requires Structure(qs, server) && server.Sorting?
    requires IsSorting(qs[server.q].slots[..qs[server.q].entries], sorted, debug)
    ensures Thinner(qs, Resting, server.q, Refill(qs[server.q], sorted, aggressive))
  {
    hide Bag, Refill, IsSorting;
    RefillBag(qs[server.q], sorted, debug, aggressive);
    RefillReady(qs[server.q], sorted, debug, aggressive);
  }

  /** The walk writes the first slot it has not filled, and that slot is empty. */
  lemma PushFills(q: Queue, slot: nat, r: Ref, score: nat)
    requires Filled(q, slot) && slot < EVICT_SLOTS
    ensures q.slots[slot].ref.None?
    ensures Filled(Push(q, slot, r, score), slot + 1)
    ensures Bag(Push(q, slot, r, score).slots) == Bag(q.slots) + multiset{r}
  {
    hide Bag;
    BagUpdate(q.slots, slot, Entry(Some(r.tree), Some(r), score));
    assert Live(q.slots[slot]) == multiset{};
  }

  // ---------------------------------------------------------------- flags

  /** Removing entries and the flags of the pages removed keeps flags and slots in agreement. */
  lemma RemovalAgrees(qs: seq<Queue>, visit: Visit, flagged: set<Ref>, i: nat, q: Queue)
    requires |qs| == 3 && i < 3 && Flags(qs, visit, flagged) && Bag(q.slots) <= BagOf(qs, i)
    ensures Flags(qs[i := q], visit, flagged - Gone(qs[i], q))
    ensures Gone(qs[i], q) <= flagged
    ensures multiset(Gone(qs[i], q)) == BagOf(qs, i) - Bag(q.slots)
  {
    hide Bag;
    var gone := BagOf(qs, i) - Bag(q.slots);
    var before, after := Queued(qs) + Pending(visit), Queued(qs[i := q]) + Pending(visit);
    forall r: Ref ensures before[r] == after[r] + gone[r] && before[r] == multiset(flagged)[r] {
      assert BagOf(qs, i)[r] == BagOf(qs[i := q], i)[r] + gone[r];
    }
    forall r: Ref ensures multiset(Gone(qs[i], q))[r] == gone[r] {
      assert before[r] <= 1;
    }
    assert before == after + multiset(Gone(qs[i], q));
    Unflag(after, Gone(qs[i], q), flagged);
  }

  /** A flagged page is named once; an unflagged one nowhere. */
  lemma NamedOnce(qs: seq<Queue>, visit: Visit, flagged: set<Ref>, r: Ref)
    requires |qs| == 3 && Flags(qs, visit, flagged)
    ensures (Queued(qs) + Pending(visit))[r] == if r in flagged then 1 else 0
    ensures forall i :: 0 <= i < 3 && r in BagOf(qs, i) ==> r in flagged
  {
    hide Bag;
    assert multiset(flagged)[r] == if r in flagged then 1 else 0;
  }
}
