/** Overflow values: readers pass the cell and the blocks behind it under a read lock, reconciliation
    marks the cell removed under the write lock and then frees the blocks. */
module Overflow {
  datatype Kind = Key | Value

  /** What the callers see to.  `instantiated`: a key is in memory before its cell is discarded, so
      from then on nobody begins to read the cell.  `serial`: a discard begins only when no other is
      under way.  `budget` bounds the number of discards. */
  datatype Setting = Setting(kind: Kind, instantiated: bool, serial: bool, budget: nat)

  datatype Cell = Present | Removed

  datatype Lock = Shared(who: set<nat>) | Exclusive(owner: nat)

  /** A reader holding the lock: before its test, with the marker, about to read the blocks, and with
      what it read. */
  datatype Reader = Entered | SawMarker | SawCell | GotValue | GotGarbage

  /** A discard: the type it unpacked before it asked for the lock, then with the lock, then about to
      free the blocks.  `Stuck` is the return that keeps the lock. */
  datatype Discard = Unpacked(raw: Cell) | Holding(raw: Cell) | Marked | Freeing | Done | Stuck

  datatype World = World(cell: Cell, lock: Lock, freed: nat, readers: map<nat, Reader>, discards: map<nat, Discard>, begun: nat)

  datatype Action =
    | ReadLock(t: nat)
    | ReadTest(t: nat)
    | ReadBlocks(t: nat)
    | ReadUnlock(t: nat)
    | Unpack(t: nat)
    | WriteLock(t: nat)
    | Reset(t: nat)
    | WriteUnlock(t: nat)
    | Free(t: nat)

  predicate Active(d: Discard) {
    !d.Done?
  }

  ghost predicate Enabled(w: World, a: Action, s: Setting) {
    match a
    case ReadLock(t) =>
      w.lock.Shared? && t !in w.readers && (s.kind.Key? && s.instantiated ==> w.begun == 0)
    case ReadTest(t) => t in w.readers && w.readers[t].Entered?
    case ReadBlocks(t) => t in w.readers && w.readers[t].SawCell?
    case ReadUnlock(t) => t in w.readers && !w.readers[t].Entered? && !w.readers[t].SawCell? && w.lock.Shared?
    case Unpack(t) =>
      t !in w.discards && w.begun < s.budget
      && (s.serial ==> forall u :: u in w.discards ==> !Active(w.discards[u]))
    case WriteLock(t) => t in w.discards && w.discards[t].Unpacked? && w.lock == Shared({})
    case Reset(t) => t in w.discards && w.discards[t].Holding?
    case WriteUnlock(t) => t in w.discards && w.discards[t].Marked?
    case Free(t) => t in w.discards && w.discards[t].Freeing?
  }

  function Next(w: World, a: Action, ghost s: Setting, kind: Kind): World
    requires Enabled(w, a, s) && kind == s.kind
  {
    match a
    case ReadLock(t) => w.(lock := Shared(w.lock.who + {t}), readers := w.readers[t := Entered])
    case ReadTest(t) => w.(readers := w.readers[t := if kind.Value? && w.cell.Removed? then SawMarker else SawCell])
    case ReadBlocks(t) => w.(readers := w.readers[t := if w.freed == 0 then GotValue else GotGarbage])
    case ReadUnlock(t) => w.(lock := Shared(w.lock.who - {t}), readers := w.readers - {t})
    case Unpack(t) => w.(discards := w.discards[t := Unpacked(w.cell)], begun := w.begun + 1)
    case WriteLock(t) => w.(lock := Exclusive(t), discards := w.discards[t := Holding(w.discards[t].raw)])
    case Reset(t) =>
      if w.discards[t].raw.Present? then w.(cell := Removed, discards := w.discards[t := Marked])
      else w.(discards := w.discards[t := Stuck])
    case WriteUnlock(t) => w.(lock := Shared({}), discards := w.discards[t := Freeing])
    case Free(t) => w.(freed := w.freed + 1, discards := w.discards[t := Done])
  }

  ghost predicate Init(w: World) {
    w == World(Present, Shared({}), 0, map[], map[], 0)
  }

  ghost predicate IsStep(w: World, a: Action, w': World, s: Setting) {
    Enabled(w, a, s) && Next(w, a, s, s.kind) == w'
  }

  ghost predicate Steps(w: World, w': World, s: Setting) {
    exists a :: IsStep(w, a, w', s)
  }

  ghost predicate IsRun(run: seq<World>, s: Setting) {
    && run != []
    && if |run| == 1 then Init(run[0]) else IsRun(run[..|run| - 1], s) && Steps(run[|run| - 2], run[|run| - 1], s)
  }

  ghost predicate Reachable(w: World, s: Setting) {
    exists run :: IsRun(run, s) && run[|run| - 1] == w
  }

  // ---------------------------------------------------------------- invariants

  predicate Locking(d: Discard) {
    d.Holding? || d.Marked? || d.Stuck?
  }

  ghost predicate Locks(w: World) {
    && (w.lock.Shared? ==> forall t :: t in w.lock.who <==> t in w.readers)
    && (w.lock.Exclusive? ==> (forall t :: t !in w.readers) && w.lock.owner in w.discards && Locking(w.discards[w.lock.owner]))
    && (forall t :: t in w.discards && Locking(w.discards[t]) ==> w.lock == Exclusive(t))
  }

  /** Nobody frees the blocks before the cell is marked. */
  ghost predicate MarkFirst(w: World) {
    w.cell.Present? ==>
      && w.freed == 0
      && forall t :: t in w.discards ==> w.discards[t].Unpacked? || w.discards[t].Holding? || w.discards[t].Stuck?
  }

  /** A reader past its test of a value cell still sees that cell, because it keeps the lock. */
  ghost predicate ReadersSafe(w: World, s: Setting) {
    s.kind.Value? ==> forall t :: t in w.readers ==>
      && !w.readers[t].GotGarbage?
      && (w.readers[t].SawCell? || w.readers[t].GotValue? ==> w.cell.Present?)
      && (w.readers[t].SawMarker? ==> w.cell.Removed?)
  }

  /** While somebody reads an instantiated key, no discard of it has got the lock yet. */
  ghost predicate KeysSafe(w: World, s: Setting) {
    s.kind.Key? && s.instantiated ==> forall t :: t in w.readers ==>
      && !w.readers[t].GotGarbage?
      && w.cell.Present? && w.freed == 0
      && forall u :: u in w.discards ==> w.discards[u].Unpacked?
  }

  /** With discards one at a time, the one under way is the only one that can still free. */
  ghost predicate OneFree(w: World, s: Setting) {
    s.serial || s.budget <= 1 ==>
      && (forall t, u :: t in w.discards && u in w.discards && Active(w.discards[t]) && Active(w.discards[u]) ==> t == u)
      && w.freed <= 1
      && (forall t :: t in w.discards ==> WillFree(w.discards[t]) ==> w.freed == 0)
      && (forall t :: t in w.discards && (w.discards[t].Unpacked? || w.discards[t].Holding?) ==> w.discards[t].raw == w.cell)
  }

  predicate WillFree(d: Discard) {
    d.Marked? || d.Freeing? || ((d.Unpacked? || d.Holding?) && d.raw.Present?)
  }

  ghost predicate NoSecond(w: World, s: Setting) {
    && w.begun <= s.budget
    && (w.begun == 0 ==> forall t :: t !in w.discards)
    && (s.budget <= 1 ==> forall t :: t in w.discards ==>
          && !w.discards[t].Stuck?
          && (w.discards[t].Unpacked? || w.discards[t].Holding? ==> w.discards[t].raw.Present?))
    && (w.cell.Removed? ==> w.begun > 0)
  }

  ghost predicate Inv(w: World, s: Setting) {
    Locks(w) && MarkFirst(w) && ReadersSafe(w, s) && KeysSafe(w, s) && OneFree(w, s) && NoSecond(w, s)
  }

  lemma StepKeeps(w: World, a: Action, s: Setting)
    requires Inv(w, s) && Enabled(w, a, s)
    ensures Inv(Next(w, a, s, s.kind), s)
  {
    hide Locks, MarkFirst, ReadersSafe, KeysSafe, OneFree, NoSecond, Enabled, Next;
    KeepsKeys(w, a, s);
    KeepsLocks(w, a, s);
    KeepsMarkFirst(w, a, s);
    KeepsSafe(w, a, s);
    KeepsOneFree(w, a, s);
    KeepsNoSecond(w, a, s);
  }

  lemma KeepsLocks(w: World, a: Action, s: Setting)
    requires Inv(w, s) && Enabled(w, a, s)
    ensures Locks(Next(w, a, s, s.kind))
  {
    hide ReadersSafe, KeysSafe, OneFree, NoSecond, MarkFirst;
  }

  lemma KeepsMarkFirst(w: World, a: Action, s: Setting)
    requires Inv(w, s) && Enabled(w, a, s)
    ensures MarkFirst(Next(w, a, s, s.kind))
  {
    hide ReadersSafe, KeysSafe, OneFree, NoSecond, Locks;
  }

  lemma KeepsSafe(w: World, a: Action, s: Setting)
    requires Inv(w, s) && Enabled(w, a, s)
    ensures ReadersSafe(Next(w, a, s, s.kind), s)
  {
    hide OneFree, NoSecond, KeysSafe;
  }

  lemma KeepsKeys(w: World, a: Action, s: Setting)
    requires Inv(w, s) && Enabled(w, a, s)
    ensures KeysSafe(Next(w, a, s, s.kind), s)
  {
    hide OneFree, ReadersSafe;
  }

  lemma KeepsOneFree(w: World, a: Action, s: Setting)
    requires Inv(w, s) && Enabled(w, a, s)
    ensures OneFree(Next(w, a, s, s.kind), s)
  {
    hide ReadersSafe, KeysSafe, Locks;
  }

  lemma KeepsNoSecond(w: World, a: Action, s: Setting)
    requires Inv(w, s) && Enabled(w, a, s)
    ensures NoSecond(Next(w, a, s, s.kind), s)
  {
    hide ReadersSafe, KeysSafe, Locks, OneFree, MarkFirst;
  }

  lemma {:induction false} RunKeeps(run: seq<World>, s: Setting)
    requires IsRun(run, s)
    ensures Inv(run[|run| - 1], s)
  {
    if |run| > 1 {
      hide Inv, Enabled, Next, Init;
      var w, w' := run[|run| - 2], run[|run| - 1];
      RunKeeps(run[..|run| - 1], s);
      var a :| IsStep(w, a, w', s);
      StepKeeps(w, a, s);
    }
  }

  lemma ReachableInv(w: World, s: Setting)
    requires Reachable(w, s)
    ensures Inv(w, s)
  {
    hide Inv;
    var run :| IsRun(run, s) && run[|run| - 1] == w;
    RunKeeps(run, s);
  }

  // ---------------------------------------------------------------- reaching worlds

  lemma Start(s: Setting) returns (w: World)
    ensures Reachable(w, s) && Init(w)
  {
    w := World(Present, Shared({}), 0, map[], map[], 0);
    assert IsRun([w], s) && [w][|[w]| - 1] == w;
  }

  lemma Take(w: World, a: Action, s: Setting) returns (w': World)
    requires Reachable(w, s) && Enabled(w, a, s)
    ensures w' == Next(w, a, s, s.kind) && Reachable(w', s)
  {
    hide Enabled, Next, Init;
    var run :| IsRun(run, s) && run[|run| - 1] == w;
    w' := Next(w, a, s, s.kind);
    var run' := run + [w'];
    assert run'[..|run'| - 1] == run;
    assert IsStep(w, a, w', s);
    assert IsRun(run', s);
  }

  /** Once unpacked, a discard of a cell it saw present runs to its end. */
  lemma Finish(w: World, t: nat, s: Setting) returns (w': World)
    requires Reachable(w, s) && t in w.discards && w.discards[t] == Unpacked(Present) && w.lock == Shared({})
    ensures Reachable(w', s) && w'.freed == w.freed + 1 && w'.lock == Shared({}) && w'.cell.Removed?
    ensures w'.readers == w.readers && w'.discards == w.discards[t := Done] && w'.begun == w.begun
  {
    hide Reachable;
    w' := Take(w, WriteLock(t), s);
    w' := Take(w', Reset(t), s);
    w' := Take(w', WriteUnlock(t), s);
    w' := Take(w', Free(t), s);
    assert w'.discards == w.discards[t := Done];
  }

  // ---------------------------------------------------------------- theorems

  ghost predicate NeverGarbage(s: Setting) {
    forall w, t :: Reachable(w, s) && t in w.readers ==> !w.readers[t].GotGarbage?
  }

  /** No reader reads freed blocks, exactly for values and for keys instantiated before their cell is
      discarded (or where nothing ever is): the reader's test does not know the removed marker of
      keys, so it is the callers who have to keep readers of the key away. */
  lemma SafeExactly(s: Setting)
    ensures NeverGarbage(s) <==> s.kind.Value? || s.instantiated || s.budget == 0
  {
    hide Reachable;
    if s.kind.Value? || s.instantiated || s.budget == 0 {
      forall w, t | Reachable(w, s) && t in w.readers ensures !w.readers[t].GotGarbage? {
        ReachableInv(w, s);
        if s.budget == 0 {
          NoGarbageWithoutDiscards(w, s);
        }
      }
    } else {
      var w := Start(s);
      w := Take(w, Unpack(0), s);
      w := Finish(w, 0, s);
      w := Take(w, ReadLock(0), s);
      w := Take(w, ReadTest(0), s);
      w := Take(w, ReadBlocks(0), s);
      assert w.readers[0].GotGarbage?;
    }
  }

  lemma {:induction false} NoGarbageInRun(run: seq<World>, s: Setting)
    requires IsRun(run, s) && s.budget == 0
    ensures var w := run[|run| - 1]; w.freed == 0 && forall t :: t in w.readers ==> !w.readers[t].GotGarbage?
  {
    if |run| > 1 {
      var w, w' := run[|run| - 2], run[|run| - 1];
      NoGarbageInRun(run[..|run| - 1], s);
      RunKeeps(run[..|run| - 1], s);
      var a :| IsStep(w, a, w', s);
    }
  }

  lemma NoGarbageWithoutDiscards(w: World, s: Setting)
    requires Reachable(w, s) && s.budget == 0
    ensures forall t :: t in w.readers ==> !w.readers[t].GotGarbage?
  {
    var run :| IsRun(run, s) && run[|run| - 1] == w;
    NoGarbageInRun(run, s);
  }

  ghost predicate FreedOnce(s: Setting) {
    forall w :: Reachable(w, s) ==> w.freed <= 1
  }

  /** The blocks are freed at most once exactly when discards of the cell do not overlap: the type is
      unpacked before the lock is taken. */
  lemma FreedOnceExactly(s: Setting)
    ensures FreedOnce(s) <==> s.serial || s.budget <= 1
  {
    hide Reachable;
    if s.serial || s.budget <= 1 {
      forall w | Reachable(w, s) ensures w.freed <= 1 {
        ReachableInv(w, s);
      }
    } else {
      var w := Start(s);
      w := Take(w, Unpack(0), s);
      w := Take(w, Unpack(1), s);
      w := Finish(w, 0, s);
      w := Finish(w, 1, s);
      assert w.freed == 2;
    }
  }

  ghost predicate IsStuck(w: World) {
    exists t :: t in w.discards && w.discards[t].Stuck?
  }

  ghost predicate NeverStuck(s: Setting) {
    forall w :: Reachable(w, s) ==> !IsStuck(w)
  }

  /** A discard keeps the write lock for ever exactly when the cell can be discarded again: the second
      one finds the removed type and returns from inside the locked region. */
  lemma NeverStuckExactly(s: Setting)
    ensures NeverStuck(s) <==> s.budget <= 1
  {
    hide Reachable;
    if s.budget <= 1 {
      forall w | Reachable(w, s) ensures !IsStuck(w) {
        ReachableInv(w, s);
      }
    } else {
      var w := Start(s);
      w := Take(w, Unpack(0), s);
      w := Finish(w, 0, s);
      w := Take(w, Unpack(1), s);
      w := Take(w, WriteLock(1), s);
      w := Take(w, Reset(1), s);
      assert w.discards[1].Stuck?;
    }
  }

  /** From then on nobody reads an overflow value or discards one. */
  lemma StuckForever(w: World, a: Action, s: Setting)
    requires Inv(w, s) && IsStuck(w) && Enabled(w, a, s)
    ensures a.Unpack? || a.Free?
    ensures IsStuck(Next(w, a, s, s.kind)) && Next(w, a, s, s.kind).lock == w.lock
  {
    hide ReadersSafe, KeysSafe, OneFree, NoSecond, MarkFirst;
    var t :| t in w.discards && w.discards[t].Stuck?;
    assert t in Next(w, a, s, s.kind).discards && Next(w, a, s, s.kind).discards[t].Stuck?;
  }

  /** What a reader of a value comes away with is the value if its cell was there, or the marker. */
  lemma ReaderSees(w: World, t: nat, s: Setting)
    requires Reachable(w, s) && s.kind.Value? && t in w.readers && Enabled(w, ReadUnlock(t), s)
    ensures w.readers[t] == if w.cell.Present? then GotValue else SawMarker
    ensures w.cell.Present? ==> w.freed == 0
  {
    hide Reachable;
    ReachableInv(w, s);
  }
}
