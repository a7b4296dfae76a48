/** LRU eviction as a transition system.

    One server walks trees and fills the ordinary queues; any thread holding a hazard pointer may
    append to the urgent queue; any thread may take a page out of a queue and evict it; a thread
    may turn eviction off for a tree and wait for it to drain.  A step is one lock-protected
    region, one compare-and-swap or one read or write of a shared word, and every interleaving of
    steps is a run.

    The disabled count of a tree is raised by a plain increment, a load and a later store, while it
    is lowered by an atomic decrement that takes no lock: a release can fall between the two. */
module EvictProtocol {
  import opened Options
  import opened LruQueue
  import opened QueueRefill

  /** The eviction server between its walks, appending at `slot` of queue `q`, or about to sort. */
  datatype Server = Resting | Filling(q: nat, slot: nat) | Sorting(q: nat)

  /** A tree walk in progress: the page it holds a hazard pointer on, and whether it has won that
      page's LRU flag but not yet written the slot. */
  datatype Visit = NoVisit | In(tree: nat, cursor: Option<Ref>, pending: bool)

  /** Progress of a thread turning eviction off: it has read the count, stored it one higher, ... */
  datatype Phase = Loaded(v: int) | Raised | WalkCleared | Clearing(k: nat) | Draining

  /** Who holds the walk lock. */
  datatype Gate = Open | Walking | Switching(tree: nat, phase: Phase)

  datatype QueueLock = Unlocked | BySwitch | ByJob(ref: Ref)

  /** An eviction holding a reference locked. */
  datatype JobPhase = Grabbed | Checked | Searching(k: nat) | Unqueued
  datatype Job = Job(phase: JobPhase, lru: bool, counted: bool)

  /** What has become of the pages ever pushed on the urgent queue: handed out, dropped because the
      reference could not be locked, cleared by the eviction of the page, or cleared with its tree. */
  datatype Log = Log(pushed: multiset<Ref>, handed: multiset<Ref>, unlockable: multiset<Ref>,
                     byPage: multiset<Ref>, byTree: multiset<Ref>)

  /** What callers promise about the moment they release a tree: nothing, that the last one to hold
      it does not release it while another request is between reading and storing the count, or that
      nobody does. */
  datatype Callers = Any | KeepLast | Serial

  datatype World = World(
    queues: seq<Queue>,
    flagged: set<Ref>,
    mem: set<Ref>,
    locked: set<Ref>,
    readers: multiset<Ref>,
    walkPoint: map<nat, Ref>,
    server: Server,
    visit: Visit,
    gate: Gate,
    queueLock: QueueLock,
    jobs: map<Ref, Job>,
    busy: map<nat, int>,
    disabled: map<nat, int>,
    holders: map<nat, int>,
    urgent: Log)

  datatype Action =
    | ServerBegin(q: nat)
    | VisitBegin(tree: nat)
    | VisitMove(next: Option<Ref>)
    | VisitFlag
    | VisitWrite(score: nat)
    | VisitEnd(keep: bool)
    | ServerPublish
    | ServerSort(sorted: seq<Entry>, debug: bool, aggressive: bool)
    | ServerGiveUp
    | HandOut(i: nat, half: bool, decline: set<Ref>, lockable: set<Ref>)
    | ForceLock(ref: Ref)
    | ForceCount(ref: Ref)
    | JobCheck(ref: Ref)
    | JobSearch(ref: Ref)
    | JobStep(ref: Ref)
    | JobDiscard(ref: Ref)
    | JobFail(ref: Ref)
    | Acquire(ref: Ref)
    | Release(ref: Ref)
    | PageIn(ref: Ref)
    | UrgentPush(ref: Ref, score: nat)
    | UrgentRewind(ref: Ref)
    | OnLoad(tree: nat)
    | OnStore
    | OnClearWalk(ok: bool)
    | OnLockQueues
    | OnClearQueue
    | OnDrained
    | Off(tree: nat)
    | CloseFree(ref: Ref)

  function Count(m: map<nat, int>, t: nat): int {
    if t in m then m[t] else 0
  }

  function Add(m: map<nat, int>, t: nat, d: int): map<nat, int> {
    m[t := Count(m, t) + d]
  }

  predicate Hazard(w: World, r: Ref) {
    || r in w.readers
    || (w.visit.In? && w.visit.cursor == Some(r))
    || (r.tree in w.walkPoint && w.walkPoint[r.tree] == r)
  }

  function Gone(before: Queue, after: Queue): set<Ref> {
    set r | r in Bag(before.slots) - Bag(after.slots)
  }

  /** Put a queue back with some entries removed; the pages removed lose their flag.  For the urgent
      queue `log` says what became of them. */
  function Replace(w: World, i: nat, q: Queue, log: Log): World
    requires i < |w.queues|
  {
    w.(queues := w.queues[i := q],
       flagged := w.flagged - Gone(w.queues[i], q),
       urgent := if i == 2 then log else w.urgent)
  }

  function HandedLog(log: Log, q: Queue, t: Taken): Log
    requires q.current.Some? ==> q.current.value <= t.end <= |q.slots|
  {
    log.(handed := log.handed + Handed(t), unlockable := log.unlockable + Dropped(q, t))
  }

  function HandedOut(w: World, i: nat, t: Taken): World
    requires i < |w.queues| && (w.queues[i].current.Some? ==> w.queues[i].current.value <= t.end <= |w.queues[i].slots|)
  {
    var w' := Replace(w, i, t.queue, HandedLog(w.urgent, w.queues[i], t));
    if t.handed.None? then w'
    else
      var r := t.handed.value;
      w'.(mem := w.mem - {r}, locked := w.locked + {r},
          jobs := w.jobs[r := Job(Grabbed, true, true)],
          busy := Add(w.busy, r.tree, 1))
  }

  /** An eviction ends: its reference leaves memory or becomes available again. */
  function Ended(w: World, r: Ref, stays: bool): World
    requires r in w.jobs
  {
    w.(locked := w.locked - {r},
       mem := if stays then w.mem + {r} else w.mem,
       jobs := w.jobs - {r},
       busy := if w.jobs[r].counted then Add(w.busy, r.tree, -1) else w.busy)
  }

  /** No page has been freed while its flag was set. */
  ghost predicate Intact(w: World) {
    w.flagged <= w.mem + w.locked
  }

  /** A release of `t` falls between the read and the store of another request for it. */
  predicate Between(w: World, t: nat) {
    w.gate.Switching? && w.gate.tree == t && w.gate.phase.Loaded?
  }

  predicate MayRelease(w: World, t: nat, callers: Callers) {
    Between(w, t) ==> callers.Any? || (callers.KeepLast? && Count(w.holders, t) > 1)
  }

  /** A step some thread can take.  Once a page has been freed while it was still queued nothing that
      follows is defined, so a run ends there. */
  ghost predicate Enabled(w: World, a: Action, callers: Callers)
    requires |w.queues| == 3
  {
    Intact(w) && Guard(w, a) && (a.Off? ==> MayRelease(w, a.tree, callers))
  }

  ghost predicate Guard(w: World, a: Action)
    requires |w.queues| == 3
  {
    match a
    case ServerBegin(q) => w.server.Resting? && q < 2
    case VisitBegin(t) => w.server.Filling? && w.gate.Open? && Count(w.disabled, t) == 0
    case VisitMove(next) => w.visit.In? && !w.visit.pending && (next.Some? ==> next.value in w.mem && next.value.tree == w.visit.tree)
    case VisitFlag => w.visit.In? && !w.visit.pending && w.visit.cursor.Some? && w.server.Filling?
                      && w.visit.cursor.value !in w.flagged && w.server.slot < EVICT_SLOTS
    case VisitWrite(_) => w.visit.In? && w.visit.pending && w.visit.cursor.Some? && w.server.Filling?
                          && w.server.q < 2 && w.server.slot < |w.queues[w.server.q].slots|
    case VisitEnd(_) => w.visit.In? && !w.visit.pending
    case ServerPublish => w.server.Filling? && w.visit.NoVisit? && w.server.q < 2
    case ServerSort(sorted, debug, _) =>
      && w.server.Sorting? && w.server.q < 2
      && w.queues[w.server.q].entries <= |w.queues[w.server.q].slots|
      && IsSorting(w.queues[w.server.q].slots[..w.queues[w.server.q].entries], sorted, debug)
    case ServerGiveUp => w.server.Sorting?
    case HandOut(i, half, decline, lockable) =>
      && i < 3 && w.queues[i].candidates <= |w.queues[i].slots| && lockable <= w.mem
      && (w.queues[i].current.Some? ==> w.queues[i].current.value <= w.queues[i].candidates)
    case ForceLock(r) => r in w.mem
    case ForceCount(r) => r in w.jobs && !w.jobs[r].counted
    case JobCheck(r) => r in w.jobs && w.jobs[r].counted && w.jobs[r].phase.Grabbed? && !Hazard(w, r)
    case JobSearch(r) => r in w.jobs && w.jobs[r].phase.Checked? && (r in w.flagged ==> w.queueLock.Unlocked?)
    case JobStep(r) => r in w.jobs && w.jobs[r].phase.Searching?
                       && (w.jobs[r].phase.k < 3 ==> w.queues[w.jobs[r].phase.k].max <= |w.queues[w.jobs[r].phase.k].slots|)
    case JobDiscard(r) => r in w.jobs && w.jobs[r].phase.Unqueued?
    case JobFail(r) => r in w.jobs && !w.jobs[r].phase.Searching?
    case Acquire(r) => r in w.mem
    case Release(r) => r in w.readers
    case PageIn(r) => r !in w.mem && r !in w.locked
    case UrgentPush(r, _) =>
      && Hazard(w, r) && w.queueLock.Unlocked? && r !in w.flagged && Count(w.disabled, r.tree) <= 0
      && Rewind(w.queues[2]).candidates < |w.queues[2].slots|
    case UrgentRewind(r) => w.queueLock.Unlocked? && Count(w.disabled, r.tree) <= 0
    case OnLoad(t) => w.gate.Open?
    case OnStore => w.gate.Switching? && w.gate.phase.Loaded?
    case OnClearWalk(_) => w.gate.Switching? && w.gate.phase.Raised?
    case OnLockQueues => w.gate.Switching? && w.gate.phase.WalkCleared? && w.queueLock.Unlocked?
    case OnClearQueue => w.gate.Switching? && w.gate.phase.Clearing? && w.gate.phase.k < 3
    case OnDrained => w.gate.Switching? && w.gate.phase.Draining? && Count(w.busy, w.gate.tree) == 0
    case Off(t) => Count(w.holders, t) > 0
    case CloseFree(r) => r in w.mem && Count(w.holders, r.tree) > 0 && !Hazard(w, r)
  }

  /** The thread raising the disabled count to `v`: a later thread is done, the first one goes on. */
  function RaisedTo(w: World, t: nat, v: int): World {
    if v > 1
    then w.(disabled := w.disabled[t := v], gate := Open, holders := Add(w.holders, t, 1))
    else w.(disabled := w.disabled[t := v], gate := Switching(t, Raised))
  }

  function Next(w: World, a: Action): World
    requires |w.queues| == 3 && Guard(w, a)
  {
    match a
    case ServerBegin(q) => w.(server := Filling(q, w.queues[q].entries))
    case VisitBegin(t) =>
      w.(gate := Walking,
         visit := In(t, if t in w.walkPoint then Some(w.walkPoint[t]) else None, false),
         walkPoint := w.walkPoint - {t})
    case VisitMove(next) => w.(visit := w.visit.(cursor := next))
    case VisitFlag => w.(flagged := w.flagged + {w.visit.cursor.value}, visit := w.visit.(pending := true))
    case VisitWrite(score) =>
      w.(queues := w.queues[w.server.q := Push(w.queues[w.server.q], w.server.slot, w.visit.cursor.value, score)],
         server := w.server.(slot := w.server.slot + 1),
         visit := w.visit.(pending := false))
    case VisitEnd(keep) =>
      w.(gate := Open, visit := NoVisit,
         walkPoint := if keep && w.visit.cursor.Some? then w.walkPoint[w.visit.tree := w.visit.cursor.value] else w.walkPoint)
    case ServerPublish =>
      w.(queues := w.queues[w.server.q := w.queues[w.server.q].(entries := w.server.slot)], server := Sorting(w.server.q))
    case ServerSort(sorted, _, aggressive) =>
      Replace(w, w.server.q, Refill(w.queues[w.server.q], sorted, aggressive), w.urgent).(server := Resting)
    case ServerGiveUp => w.(server := Resting)
    case HandOut(i, half, decline, lockable) =>
      HandedOut(w, i, Take(w.queues[i], ServerLimit(w.queues[i], half && i < 2), decline, lockable))
    case ForceLock(r) => w.(mem := w.mem - {r}, locked := w.locked + {r}, jobs := w.jobs[r := Job(Grabbed, false, false)])
    case ForceCount(r) => w.(jobs := w.jobs[r := w.jobs[r].(counted := true)], busy := Add(w.busy, r.tree, 1))
    case JobCheck(r) => w.(jobs := w.jobs[r := w.jobs[r].(phase := Checked)])
    case JobSearch(r) =>
      if r in w.flagged
      then w.(jobs := w.jobs[r := w.jobs[r].(phase := Searching(0))], queueLock := ByJob(r))
      else w.(jobs := w.jobs[r := w.jobs[r].(phase := Unqueued)])
    case JobStep(r) =>
      var k := w.jobs[r].phase.k;
      if k >= 3 then w.(jobs := w.jobs[r := w.jobs[r].(phase := Unqueued)], queueLock := Unlocked)
      else if r in Bag(w.queues[k].slots)
      then Replace(w, k, w.queues[k].(slots := ClearRef(w.queues[k].slots, w.queues[k].max, r)),
                   w.urgent.(byPage := w.urgent.byPage + multiset{r}))
             .(jobs := w.jobs[r := w.jobs[r].(phase := Unqueued)], queueLock := Unlocked)
      else w.(jobs := w.jobs[r := w.jobs[r].(phase := Searching(k + 1))])
    case JobDiscard(r) => Ended(w, r, false)
    case JobFail(r) => Ended(w, r, true)
    case Acquire(r) => w.(readers := w.readers + multiset{r})
    case Release(r) => w.(readers := w.readers - multiset{r})
    case PageIn(r) => w.(mem := w.mem + {r})
    case UrgentPush(r, score) =>
      w.(queues := w.queues[2 := Urgent(w.queues[2], r, score)], flagged := w.flagged + {r},
         urgent := w.urgent.(pushed := w.urgent.pushed + multiset{r}))
    case UrgentRewind(_) => w.(queues := w.queues[2 := Rewind(w.queues[2])])
    case OnLoad(t) => w.(gate := Switching(t, Loaded(Count(w.disabled, t))))
    case OnStore => RaisedTo(w, w.gate.tree, w.gate.phase.v + 1)
    case OnClearWalk(ok) =>
      var t := w.gate.tree;
      if ok then w.(walkPoint := w.walkPoint - {t}, gate := Switching(t, WalkCleared))
      else w.(walkPoint := w.walkPoint - {t}, gate := Open, disabled := Add(w.disabled, t, -1))
    case OnLockQueues => w.(gate := Switching(w.gate.tree, Clearing(0)), queueLock := BySwitch)
    case OnClearQueue =>
      var k, t := w.gate.phase.k, w.gate.tree;
      var w' := Replace(w, k, w.queues[k].(slots := ClearTree(w.queues[k].slots, w.queues[k].max, t)),
                        w.urgent.(byTree := w.urgent.byTree + TreeBag(w.queues[k].slots, t)));
      if k < 2 then w'.(gate := Switching(t, Clearing(k + 1)))
      else w'.(gate := Switching(t, Draining), queueLock := Unlocked)
    case OnDrained => w.(gate := Open, holders := Add(w.holders, w.gate.tree, 1))
    case Off(t) => w.(disabled := Add(w.disabled, t, -1), holders := Add(w.holders, t, -1))
    case CloseFree(r) => w.(mem := w.mem - {r})
  }

  ghost predicate Init(w: World) {
    && |w.queues| == 3
    && (forall i :: 0 <= i < 3 ==> Ready(w.queues[i]) && w.queues[i].entries == 0 && w.queues[i].current.None?)
    && w.flagged == {} && w.mem == {} && w.locked == {} && w.readers == multiset{} && w.walkPoint == map[]
    && w.server == Resting && w.visit == NoVisit && w.gate == Open && w.queueLock == Unlocked
    && w.jobs == map[] && w.busy == map[] && w.disabled == map[] && w.holders == map[]
    && w.urgent == Log(multiset{}, multiset{}, multiset{}, multiset{}, multiset{})
  }

  /** A run: an initial world, and every later one follows by an enabled step. */
  ghost predicate IsRun(run: seq<World>, callers: Callers) {
    && run != []
    && if |run| == 1 then Init(run[0])
       else IsRun(run[..|run| - 1], callers) && |run[|run| - 2].queues| == 3 && Steps(run[|run| - 2], run[|run| - 1], callers)
  }

  ghost predicate Steps(w: World, w': World, callers: Callers)
    requires |w.queues| == 3
  {
    exists a :: IsStep(w, a, w', callers)
  }

  ghost predicate IsStep(w: World, a: Action, w': World, callers: Callers)
    requires |w.queues| == 3
  {
    Enabled(w, a, callers) && Next(w, a) == w'
  }
}
