/** Stepping back through a skip list while other threads insert.

    The list is known by its history: `hist(t)` are the sorted chains of its levels at time `t`, and
    every pointer a cursor reads is read at the time its clock shows, after which the clock moves.
    Anything may be inserted between two reads; nothing is ever removed. */
module SkipList {
  import opened Options

  const DEPTH: nat := 10

  type List = seq<seq<int>>

  ghost predicate Sorted(s: seq<int>) {
    forall i, j :: 0 <= i < j < |s| ==> s[i] < s[j]
  }

  /** Nodes are linked at the bottom first, so each level is a part of the one below. */
  ghost predicate IsList(l: List) {
    && |l| == DEPTH
    && (forall i :: 0 <= i < DEPTH ==> Sorted(l[i]))
    && (forall i, j, k :: 0 <= i <= j < DEPTH && k in l[j] ==> k in l[i])
  }

  ghost predicate Grows(a: List, b: List) {
    && |a| == |b| == DEPTH
    && forall i, k :: 0 <= i < DEPTH && k in a[i] ==> k in b[i]
  }

  predicate Above(p: Option<int>, k: int) {
    p.Some? ==> p.value < k
  }

  /** The pointer out of node `p`, or out of the head, in one level. */
  function Follow(s: seq<int>, p: Option<int>): Option<int> {
    if s == [] then None else if Above(p, s[0]) then Some(s[0]) else Follow(s[1..], p)
  }

  function CountAbove(s: seq<int>, p: Option<int>): nat {
    if s == [] then 0 else if Above(p, s[0]) then |s| else CountAbove(s[1..], p)
  }

  lemma {:induction false} FollowIs(s: seq<int>, p: Option<int>)
    requires Sorted(s)
    ensures var r := Follow(s, p);
      && (r.Some? ==> r.value in s && Above(p, r.value) && CountAbove(s, r) < CountAbove(s, p))
      && (forall k :: k in s && Above(p, k) ==> r.Some? && r.value <= k)
  {
    if s != [] && !Above(p, s[0]) {
      FollowIs(s[1..], p);
      var r := Follow(s[1..], p);
      assert r.Some? ==> !Above(r, s[0]);
    } else if s != [] {
      CountRest(s);
    }
  }

  lemma CountRest(s: seq<int>)
    requires s != []
    ensures CountAbove(s, Some(s[0])) < |s|
  {
    CountSmall(s[1..], Some(s[0]));
  }

  lemma {:induction false} CountSmall(s: seq<int>, p: Option<int>)
    ensures CountAbove(s, p) <= |s|
  {
    if s != [] {
      CountSmall(s[1..], p);
    }
  }

  /** `p` comes directly before `k`; a null `p` says `k` is first. */
  ghost predicate Precedes(s: seq<int>, p: Option<int>, k: int) {
    && k in s && Above(p, k)
    && (p.Some? ==> p.value in s)
    && forall x :: x in s && Above(p, x) ==> k <= x
  }

  lemma FollowPrecedes(s: seq<int>, p: Option<int>, k: int)
    requires Sorted(s) && (p.Some? ==> p.value in s)
    ensures Precedes(s, p, k) <==> Follow(s, p) == Some(k)
  {
    FollowIs(s, p);
  }

  /** Inserting a node changes one pointer, the one its compare-and-swap writes: that of the node
      the new one now follows, whose old value the new node carries. */
  lemma InsertWritesOnePointer(s: seq<int>, s': seq<int>, x: int, before: Option<int>, p: Option<int>)
    requires Sorted(s) && Sorted(s') && x !in s && (forall k :: k in s' <==> k in s || k == x)
    requires Precedes(s', before, x) && (p.Some? ==> p.value in s')
    ensures Follow(s', p) == if p == before then Some(x) else if p == Some(x) then Follow(s, before) else Follow(s, p)
  {
    FollowIs(s', p);
    FollowIs(s, p);
    FollowIs(s, before);
  }

  /** The last node of a level that does not sort after `k`. */
  ghost predicate IsLast(s: seq<int>, p: Option<int>, k: int) {
    && (p.Some? ==> p.value in s && p.value <= k)
    && forall x :: x in s && x <= k ==> !Above(p, x)
  }

  ghost predicate IsTail(s: seq<int>, p: Option<int>) {
    && (p.Some? ==> p.value in s)
    && forall x :: x in s ==> !Above(p, x)
  }

  /** A stack slot: null, or the address of a pointer in the head or in a node. */
  datatype Slot = Null | Head | Next(node: int)

  function PrevItem(slot: Slot): Option<int> {
    if slot.Next? then Some(slot.node) else None
  }

  function SlotOf(p: Option<int>): Slot {
    if p.Some? then Next(p.value) else Head
  }

  /** `tails(t)[i]` is the last node of level `i` as the head records it, which may lag. */
  ghost predicate History(hist: nat -> List, tails: nat -> seq<Option<int>>) {
    && (forall t :: IsList(hist(t)) && |tails(t)| == DEPTH)
    && (forall s, t :: s <= t ==> Grows(hist(s), hist(t)))
    && (forall t, i :: 0 <= i < DEPTH && tails(t)[i].Some? ==> tails(t)[i].value in hist(t)[i])
    && (forall s, t :: s <= t ==> TailGrows(tails(s), tails(t)))
  }

  ghost predicate TailGrows(a: seq<Option<int>>, b: seq<Option<int>>) {
    && |a| == |b| == DEPTH
    && (a[0].Some? ==> b[0].Some? && a[0].value <= b[0].value)
  }

  /** From time `n` on nobody inserts, and the recorded tails are right. */
  ghost predicate Settled(hist: nat -> List, tails: nat -> seq<Option<int>>, n: nat) {
    && (forall t :: t >= n ==> hist(t) == hist(n))
    && (forall t, i :: t >= n && 0 <= i < DEPTH && |hist(n)| == |tails(t)| == DEPTH ==> IsTail(hist(n)[i], tails(t)[i]))
  }

  /** The last node of a level that sorts before `k`. */
  ghost predicate IsBefore(s: seq<int>, p: Option<int>, k: int) {
    && (p.Some? ==> p.value in s && p.value < k)
    && forall x :: x in s && x < k ==> !Above(p, x)
  }

  /** No node follows `p` in the bottom list. */
  ghost predicate EndsAt(l: List, p: int) {
    l != [] && Follow(l[0], Some(p)).None?
  }

  lemma EndIsLargest(l: List, p: int, k: int)
    requires IsList(l) && EndsAt(l, p) && InLevel(l, 0, Some(k))
    ensures k <= p
  {
    FollowIs(l[0], Some(p));
  }

  lemma EndRead(l: List, p: int)
    requires l != []
    ensures EndsAt(l, p) <==> Follow(l[0], Some(p)).None?
  {
  }

  /** What one call did: the node it stepped back from and when, or, if its search came back null, the
      node it ran to, when it saw nothing behind it and when it looked again. */
  datatype Trace = Trace(origin: int, moment: nat, lost: bool, seen: nat)

  class Finger {
    const hist: nat -> List
    const tails: nat -> seq<Option<int>>
    const column: bool
    ghost const quiet: nat
    const insStack: array<Slot>
    const nextStack: array<Option<int>>
    var ins: Option<int>
    var clock: nat

    constructor (hist: nat -> List, tails: nat -> seq<Option<int>>, column: bool, ghost quiet: nat, start: int)
      requires History(hist, tails) && Settled(hist, tails, quiet) && start in hist(0)[0]
      ensures Valid() && ins == Some(start) && clock == 0 && insStack[0] == Null && fresh(insStack) && fresh(nextStack)
      ensures this.hist == hist && this.tails == tails && this.column == column && this.quiet == quiet
    {
      this.hist, this.tails, this.column, this.quiet := hist, tails, column, quiet;
      insStack := new Slot[DEPTH](_ => Null);
      nextStack := new Option<int>[DEPTH](_ => None);
      ins, clock := Some(start), 0;
    }

    ghost predicate World() {
      insStack.Length == nextStack.Length == DEPTH && History(hist, tails) && Settled(hist, tails, quiet)
    }

    ghost predicate Valid()
      reads this, insStack
    {
      && World()
      && InLevel(hist(clock), 0, ins)
      && SlotsLinked(hist(clock), insStack[..])
    }

    ghost function Rank(): nat
      reads this`clock
    {
      if clock < quiet then quiet - clock else 0
    }

    ghost function Ahead(i: nat, from: Option<int>): nat {
      if i < |hist(quiet)| then CountAbove(hist(quiet)[i], from) else 0
    }

    lemma Grew(s: nat, t: nat)
      requires World() && s <= t
      ensures Grows(hist(s), hist(t)) && IsList(hist(s)) && IsList(hist(t)) && TailGrows(tails(s), tails(t))
      ensures quiet <= s ==> hist(s) == hist(t) == hist(quiet)
    {
    }

    lemma LevelKept(s: nat, i: nat, p: Option<int>)
      requires World() && s <= clock && InLevel(hist(s), i, p)
      ensures InLevel(hist(clock), i, p)
    {
      hide Settled;
      assert Grows(hist(s), hist(clock));
      LevelGrows(hist(s), hist(clock), i, p);
    }

    /** Read one pointer of level `i`. */
    method Read(i: nat, from: Option<int>) returns (r: Option<int>)
      requires World() && i < DEPTH && InLevel(hist(clock), i, from)
      modifies this`clock
      ensures clock == old(clock) + 1 && Grows(hist(old(clock)), hist(clock)) && IsList(hist(clock)) && IsList(hist(old(clock)))
      ensures r == Follow(hist(old(clock))[i], from)
      ensures InLevel(hist(clock), i, from) && InLevel(hist(clock), i, r)
      ensures r.Some? ==> Above(from, r.value) && Precedes(hist(old(clock))[i], from, r.value)
      ensures forall k :: k in hist(old(clock))[i] && Above(from, k) ==> r.Some? && r.value <= k
      ensures old(clock) >= quiet ==> hist(old(clock)) == hist(clock) == hist(quiet)
      ensures old(clock) >= quiet && r.Some? ==> Ahead(i, r) < Ahead(i, from)
    {
      r := Follow(hist(clock)[i], from);
      FollowIs(hist(clock)[i], from);
      clock := clock + 1;
      Grew(clock - 1, clock);
    }

    /** Point the stack at one level into node `p`, with `next` beside it. */
    method SetSlot(i: nat, slot: Slot, next: Option<int>)
      requires World() && i < DEPTH && SlotsLinked(hist(clock), insStack[..]) && InLevel(hist(clock), i, PrevItem(slot))
      modifies insStack, nextStack
      ensures SlotsLinked(hist(clock), insStack[..]) && insStack[..] == old(insStack[..])[i := slot]
    {
      hide History, Settled;
      SlotSet(hist(clock), insStack[..], i, slot);
      insStack[i], nextStack[i] := slot, next;
      assert insStack[..] == old(insStack[..])[i := slot];
    }

    /** The search has met the node itself at level `i`: point every level below at it too. */
    method FillMatched(i: nat, key: int)
      requires World() && i < DEPTH && InLevel(hist(clock), i, Some(key)) && SlotsLinked(hist(clock), insStack[..])
      modifies this`clock, insStack, nextStack
      ensures clock > old(clock) && SlotsLinked(hist(clock), insStack[..])
      ensures insStack[..] == seq(i + 1, _ => Next(key)) + old(insStack[i + 1..])
    {
      hide History, Settled, IsList, Grows, SlotsLinked;
      var j := i + 1;
      assert insStack[i + 1..] == old(insStack[i + 1..]);
      while j > 0
        invariant 0 <= j <= i + 1 && clock >= old(clock) && (j <= i ==> clock > old(clock))
        invariant SlotsLinked(hist(clock), insStack[..])
        invariant InLevel(hist(clock), if j > 0 then j - 1 else 0, Some(key))
        invariant forall l :: j <= l <= i ==> insStack[l] == Next(key)
        invariant insStack[i + 1..] == old(insStack[i + 1..])
      {
        j := j - 1;
        var r := Read(j, Some(key));
        SlotsGrow(hist(clock - 1), hist(clock), insStack[..]);
        SetSlot(j, Next(key), r);
        if j > 0 {
          Below(hist(clock), j, Some(key));
        }
      }
    }

    /** Search for node `key` from the top level, building the stack on the way. */
    method SearchLevels(key: int)
      requires Valid() && InLevel(hist(clock), 0, Some(key))
      modifies this`clock, insStack, nextStack
      ensures Valid() && clock > old(clock) && InLevel(hist(clock), 0, Some(key))
      ensures insStack.Length == DEPTH && PrevItem(insStack[0]) == Some(key)
      ensures old(clock) >= quiet ==> Exact(hist(quiet), insStack[..], key)
    {
      hide History, Settled, IsList, Grows, SlotsLinked, IsLast;
      var i, from: Option<int> := DEPTH - 1, None;
      Grew(clock, clock);
      while true
        invariant 0 <= i < DEPTH && clock >= old(clock)
        invariant Above(from, key) && InLevel(hist(clock), i, from) && InLevel(hist(clock), 0, ins) && InLevel(hist(clock), 0, Some(key))
        invariant SlotsLinked(hist(clock), insStack[..]) && IsList(hist(clock))
        invariant clock >= quiet ==> hist(clock) == hist(quiet)
        invariant old(clock) >= quiet ==> ExactFrom(hist(quiet), insStack[..], key, i + 1)
        decreases Rank(), i, Ahead(i, from)
      {
        var r := Read(i, from);
        SlotsGrow(hist(clock - 1), hist(clock), insStack[..]);
        LevelGrows(hist(clock - 1), hist(clock), 0, ins);
        LevelGrows(hist(clock - 1), hist(clock), 0, Some(key));
        ghost var slots := insStack[..];
        if r == Some(key) {
          FillMatched(i, key);
          Grew(clock, clock);
          LevelKept(old(clock), 0, ins);
          LevelKept(old(clock), 0, Some(key));
          if old(clock) >= quiet {
            Matched(hist(quiet), slots, key, i);
          }
          return;
        } else if r.Some? && r.value < key {
          from := r;
        } else {
          assert i > 0;
          SetSlot(i, SlotOf(from), r);
          if old(clock) >= quiet {
            Dropped(hist(quiet), slots, key, i, from);
          }
          Below(hist(clock), i, from);
          i := i - 1;
        }
      }
    }

    /** Read the recorded tail of level `i`. */
    method ReadTail(i: nat) returns (r: Option<int>)
      requires World() && i < DEPTH
      modifies this`clock
      ensures clock == old(clock) + 1 && |tails(old(clock))| == DEPTH && r == tails(old(clock))[i] && InLevel(hist(clock), i, r)
      ensures Grows(hist(old(clock)), hist(clock))
    {
      Grew(clock, clock + 1);
      r := tails(clock)[i];
      LevelGrows(hist(clock), hist(clock + 1), i, r);
      clock := clock + 1;
    }

    /** Some tail is recorded. */
    ghost predicate HasTail()
      reads this`clock
    {
      |tails(clock)| == DEPTH && tails(clock)[0].Some?
    }

    /** The recorded tail has caught up with node `k`. */
    ghost predicate CaughtUp(k: int)
      reads this`clock
    {
      |tails(clock)| == DEPTH && tails(clock)[0].Some? && k <= tails(clock)[0].value
    }

    lemma TailSettled(t: nat, i: nat)
      requires World() && quiet <= t && i < DEPTH
      ensures IsList(hist(quiet)) && |hist(quiet)| == DEPTH == |tails(t)| && IsTail(hist(quiet)[i], tails(t)[i])
    {
      assert IsList(hist(quiet)) && IsList(hist(t));
    }

    /** The fast path of the column search: the whole stack comes from the recorded tails. */
    method AppendStack(last: int)
      requires World() && SlotsLinked(hist(clock), insStack[..]) && InLevel(hist(clock), 0, Some(last))
      modifies this`clock, insStack, nextStack
      ensures SlotsLinked(hist(clock), insStack[..]) && clock > old(clock) && InLevel(hist(clock), 0, Some(last))
      ensures PrevItem(insStack[0]) == Some(last)
      ensures old(clock) >= quiet ==> AtTails(hist(quiet), insStack[..], last, DEPTH)
    {
      hide IsList, Grows, SlotsLinked, IsTail, TailGrows, History, Settled;
      for i := 0 to DEPTH
        invariant clock == old(clock) + i && SlotsLinked(hist(clock), insStack[..])
        invariant InLevel(hist(clock), 0, Some(last))
        invariant i > 0 ==> insStack[0] == Next(last)
        invariant old(clock) >= quiet && i > 0 ==> AtTails(hist(quiet), insStack[..], last, i)
      {
        if old(clock) >= quiet {
          TailSettled(clock, i);
        }
        var tail := ReadTail(i);
        SlotsGrow(hist(clock - 1), hist(clock), insStack[..]);
        LevelGrows(hist(clock - 1), hist(clock), 0, Some(last));
        SetSlot(i, if i == 0 then Next(last) else SlotOf(tail), None);
      }
    }

    /** Search for node `key`.  A column search whose recorded tail is null gives up, with a null node
        and the stack as it was; one whose tail has not caught up with the node moves to that tail
        instead.  These are the only ways to miss the node. */
    method Search(key: int)
      requires Valid() && InLevel(hist(clock), 0, Some(key))
      modifies this, insStack, nextStack
      ensures Valid() && clock > old(clock) && InLevel(hist(clock), 0, Some(key))
      ensures column && !old(HasTail()) ==> ins.None? && insStack[..] == old(insStack[..])
      ensures !column || old(HasTail()) ==>
        && ins == (if column && !old(CaughtUp(key)) then old(tails(clock)[0]) else Some(key))
        && ins.Some? && PrevItem(insStack[0]) == ins
        && (old(clock) >= quiet ==> Exact(hist(quiet), insStack[..], ins.value))
        && (column ==> CaughtUp(ins.value))
    {
      hide IsList, Grows, SlotsLinked, IsTail, TailGrows, History, Settled, Exact;
      if column {
        if clock >= quiet {
          TailSettled(clock, 0);
        }
        var last := ReadTail(0);
        LevelGrows(hist(clock - 1), hist(clock), 0, Some(key));
        SlotsGrow(hist(clock - 1), hist(clock), insStack[..]);
        if last.None? {
          ins := None;
          return;
        }
        ins := Some(key);
        if key >= last.value {
          AppendStack(last.value);
          LevelKept(old(clock) + 1, 0, Some(key));
          ins := last;
          StaysCaughtUp(old(clock), last.value);
          if old(clock) >= quiet {
            AtTailsExact(hist(quiet), insStack[..], last.value);
          }
          return;
        }
        SearchLevels(key);
        StaysCaughtUp(old(clock), last.value);
      } else {
        ins := Some(key);
        SearchLevels(key);
      }
    }

    lemma StaysCaughtUp(t: nat, k: int)
      requires World() && t <= clock && |tails(t)| == DEPTH && tails(t)[0].Some? && k <= tails(t)[0].value
      ensures CaughtUp(k)
    {
      hide Settled;
      assert TailGrows(tails(t), tails(clock));
    }

    lemma TailStays(t: nat)
      requires World() && t <= clock
      ensures |tails(t)| == DEPTH && tails(t)[0].Some? ==> HasTail()
    {
      hide Settled;
      assert TailGrows(tails(t), tails(clock));
    }

    /** The first node up the stack that is not the current one, and the level below it. */
    method FirstUnmoved(current: int) returns (i: nat, at: Option<int>)
      requires insStack.Length == DEPTH && PrevItem(insStack[0]) == Some(current)
      ensures i < DEPTH && forall j :: 0 <= j <= i ==> PrevItem(insStack[j]) == Some(current)
      ensures i + 1 < DEPTH ==> at == PrevItem(insStack[i + 1]) != Some(current)
      ensures i + 1 == DEPTH ==> at == Some(current)
    {
      i, at := 0, None;
      while i < DEPTH - 1
        invariant i < DEPTH && forall j :: 0 <= j <= i ==> PrevItem(insStack[j]) == Some(current)
        invariant i > 0 ==> at == Some(current)
      {
        at := PrevItem(insStack[i + 1]);
        if at != Some(current) {
          return;
        }
        i := i + 1;
      }
    }

    /** From level `i` down, the first list that does not begin with the current node. */
    method FromHead(i: nat, current: int, ghost still: bool) returns (k: int, at: Option<int>, ghost moment: nat)
      requires World() && i < DEPTH && SlotsLinked(hist(clock), insStack[..]) && InLevel(hist(clock), i, Some(current))
      requires still ==> clock >= quiet && BeforeFrom(hist(quiet), insStack[..], current, i + 1)
      modifies this`clock, insStack, nextStack
      ensures -1 <= k <= i && clock > old(clock) && SlotsLinked(hist(clock), insStack[..])
      ensures k >= 0 ==> at.Some? && at.value < current && InLevel(hist(clock), k, at) && InLevel(hist(clock), k, Some(current))
      ensures k < 0 ==> insStack[0] == Null && old(clock) <= moment < clock && ComesBefore(hist(moment), None, current)
      ensures still ==> BeforeFrom(hist(quiet), insStack[..], current, k + 1)
    {
      hide IsList, Grows, SlotsLinked, History, Settled, Precedes, IsBefore;
      k, at, moment := i, None, 0;
      while k >= 0
        invariant -1 <= k <= i && clock >= old(clock) && (k < i ==> clock > old(clock))
        invariant SlotsLinked(hist(clock), insStack[..])
        invariant InLevel(hist(clock), if k < 0 then 0 else k, Some(current))
        invariant k < 0 ==> insStack[0] == Null && old(clock) <= moment < clock && ComesBefore(hist(moment), None, current)
        invariant still ==> BeforeFrom(hist(quiet), insStack[..], current, k + 1)
      {
        ghost var slots := insStack[..];
        SetSlot(k, Null, None);
        assert current in hist(clock)[k];
        at := Read(k, None);
        SlotsGrow(hist(clock - 1), hist(clock), insStack[..]);
        LevelGrows(hist(clock - 1), hist(clock), k, Some(current));
        if at != Some(current) {
          return;
        }
        if still {
          BeforeSet(hist(quiet), slots, current, k, Null);
        }
        moment := clock - 1;
        if k > 0 {
          Below(hist(clock), k, Some(current));
        }
        k := k - 1;
      }
    }

    /** Walk the remaining levels to just before the current node; false when a list ends first. */
    method WalkDown(from: int, start: Option<int>, current: int, ghost still: bool) returns (ok: bool)
      requires World() && -1 <= from < DEPTH && SlotsLinked(hist(clock), insStack[..])
      requires from >= 0 ==> start.Some? && start != Some(current) && InLevel(hist(clock), from, start) && InLevel(hist(clock), from, Some(current))
      requires still ==> clock >= quiet && BeforeFrom(hist(quiet), insStack[..], current, from + 1)
      requires still && from >= 0 ==> start.value < current
      modifies this`clock, insStack, nextStack
      ensures clock >= old(clock) && (from >= 0 ==> clock > old(clock)) && SlotsLinked(hist(clock), insStack[..])
      ensures !ok ==> insStack[0] == Null && from >= 0
      ensures ok && from >= 0 ==> insStack[0].Next? && insStack[0].node != current
      ensures ok && from < 0 ==> insStack[..] == old(insStack[..])
      ensures still ==> ok && BeforeFrom(hist(quiet), insStack[..], current, 0)
    {
      hide IsList, Grows, SlotsLinked, History, Settled, Precedes, IsBefore;
      var i, at := from, start;
      while i >= 0
        invariant -1 <= i <= from && clock >= old(clock) && (from >= 0 && (i < from || at.None?) ==> clock > old(clock))
        invariant SlotsLinked(hist(clock), insStack[..])
        invariant i >= 0 ==> InLevel(hist(clock), i, at) && InLevel(hist(clock), i, Some(current)) && at != Some(current)
        invariant i < 0 && from >= 0 ==> insStack[0].Next? && insStack[0].node != current
        invariant from < 0 ==> insStack[..] == old(insStack[..])
        invariant still ==> BeforeFrom(hist(quiet), insStack[..], current, i + 1) && (i >= 0 ==> at.Some? && at.value < current)
        decreases Rank(), i + 1, at.Some?, Ahead(if i >= 0 then i else 0, at)
      {
        if at.None? {
          SetSlot(0, Null, None);
          return false;
        }
        ghost var slots := insStack[..];
        var r := Read(i, at);
        SlotsGrow(hist(clock - 1), hist(clock), slots);
        LevelGrows(hist(clock - 1), hist(clock), i, Some(current));
        var r' := Read(i, at);
        SlotsGrow(hist(clock - 1), hist(clock), slots);
        LevelGrows(hist(clock - 1), hist(clock), i, Some(current));
        if r != Some(current) {
          at := r';
        } else {
          SetSlot(i, Next(at.value), r');
          if still {
            BeforeSet(hist(quiet), slots, current, i, Next(at.value));
          }
          if i > 0 {
            Below(hist(clock), i, at);
            Below(hist(clock), i, Some(current));
          }
          i := i - 1;
        }
      }
      return true;
    }

    /** Read the bottom pointer once more: it must still lead to the current node. */
    method Confirm(current: int, ghost from: nat, ghost read: nat) returns (done: bool, ghost moment: nat)
      requires Valid() && ins == Some(current) && from <= clock
      requires insStack[0].Null? ==> from <= read < clock && ComesBefore(hist(read), None, current)
      requires insStack[0].Null? || insStack[0].Next?
      modifies this
      ensures Valid() && clock >= old(clock)
      ensures done ==> ins == PrevItem(insStack[0]) && from <= moment < clock && ComesBefore(hist(moment), ins, current)
      ensures !done ==> ins == Some(current) && insStack[0].Next?
      ensures old(clock) >= quiet && BeforeFrom(hist(quiet), insStack[..], current, 0) ==> done
    {
      hide IsList, Grows, SlotsLinked, TailGrows, History, Settled, Precedes, IsBefore, BeforeFrom;
      moment := read;
      BottomSlot(hist(clock), insStack[..]);
      if clock >= quiet && BeforeFrom(hist(quiet), insStack[..], current, 0) {
        Grew(quiet, clock);
        BeforeFollows(hist(quiet), insStack[..], current);
      }
      if insStack[0] != Null {
        var r := Read(0, PrevItem(insStack[0]));
        SlotsGrow(hist(clock - 1), hist(clock), insStack[..]);
        LevelGrows(hist(clock - 1), hist(clock), 0, ins);
        BottomSlot(hist(clock), insStack[..]);
        if r != Some(current) {
          return false, 0;
        }
        moment := clock - 1;
      }
      ins := PrevItem(insStack[0]);
      done := true;
    }

    /** Move back one node, or say that the search must be redone. */
    method StepBack() returns (done: bool, ghost moment: nat)
      requires Valid() && ins.Some? && PrevItem(insStack[0]) == ins
      modifies this, insStack, nextStack
      ensures Valid() && clock > old(clock)
      ensures done ==> old(clock) <= moment < clock && ComesBefore(hist(moment), ins, old(ins).value)
      ensures !done ==> ins == old(ins) && PrevItem(insStack[0]) != ins
      ensures old(clock) >= quiet && old(Exact(hist(quiet), insStack[..], ins.value)) ==>
        done && (ins.Some? ==> Exact(hist(quiet), insStack[..], ins.value))
    {
      hide IsList, Grows, SlotsLinked, TailGrows, History, Settled, Exact, Precedes, IsBefore, BeforeFrom, ComesBefore;
      var current := ins.value;
      ghost var still := clock >= quiet && Exact(hist(quiet), insStack[..], current);
      ghost var from := clock;
      var i, at := FirstUnmoved(current);
      Grew(clock, clock);
      Unmoved(hist(clock), insStack[..], i, at, current);
      if still {
        Grew(quiet, clock);
        UnmovedBefore(hist(quiet), insStack[..], current, i);
      }
      var k := i;
      moment := 0;
      if at.None? || at == Some(current) {
        k, at, moment := FromHead(i, current, still);
      }
      done := WalkDown(k, at, current, still);
      LevelKept(from, 0, ins);
      if !done {
        return;
      }
      done, moment := Confirm(current, from, moment);
      if still && ins.Some? {
        BackOne(hist(quiet), insStack[..], current);
      }
    }

    /** Some recorded tail read since `from` was `k`. */
    ghost predicate WasTail(from: nat, k: int)
      reads this`clock
    {
      exists t :: from <= t < clock && |tails(t)| == DEPTH && tails(t)[0] == Some(k)
    }

    /** The first node up the stack that is not null, and the level below it. */
    method AboveNull() returns (i: nat, at: Option<int>)
      requires World() && SlotsLinked(hist(clock), insStack[..]) && PrevItem(insStack[0]).None?
      ensures i < DEPTH && InLevel(hist(clock), i, at) && (at.None? ==> i == DEPTH - 1)
    {
      hide History, Settled, IsList, Grows;
      Grew(clock, clock);
      i, at := 0, None;
      while i < DEPTH - 1
        invariant i < DEPTH && at.None?
      {
        at := PrevItem(insStack[i + 1]);
        if at.Some? {
          assert InLevel(hist(clock), i + 1, PrevItem(insStack[..][i + 1]));
          Below(hist(clock), i + 1, at);
          return;
        }
        i := i + 1;
      }
    }

    /** The first list from the top down that has a node. */
    method FirstList(ghost key: int) returns (k: nat, at: Option<int>)
      requires World() && SlotsLinked(hist(clock), insStack[..]) && InLevel(hist(clock), 0, Some(key))
      modifies this`clock, insStack, nextStack
      ensures k < DEPTH && clock > old(clock) && SlotsLinked(hist(clock), insStack[..])
      ensures at.Some? && InLevel(hist(clock), k, at)
    {
      hide History, Settled, IsList, Grows, SlotsLinked, Precedes;
      k := DEPTH - 1;
      while true
        invariant k < DEPTH && clock >= old(clock)
        invariant SlotsLinked(hist(clock), insStack[..]) && InLevel(hist(clock), 0, Some(key))
        decreases k
      {
        SetSlot(k, Null, None);
        at := Read(k, None);
        SlotsGrow(hist(clock - 1), hist(clock), insStack[..]);
        if at.Some? {
          return;
        }
        assert k > 0;
        LevelGrows(hist(clock - 1), hist(clock), 0, Some(key));
        k := k - 1;
      }
    }

    /** With a null current node the walk drops a level only at the end of a list. */
    method WalkToEnd(from: nat, start: int) returns (end: int, ghost seen: nat)
      requires World() && from < DEPTH && SlotsLinked(hist(clock), insStack[..]) && InLevel(hist(clock), from, Some(start))
      modifies this`clock, insStack, nextStack
      ensures old(clock) <= seen < clock && SlotsLinked(hist(clock), insStack[..])
      ensures insStack[0] == Next(end) && EndsAt(hist(seen), end) && InLevel(hist(clock), 0, Some(end))
    {
      hide IsList, Grows, SlotsLinked, History, Settled, Precedes;
      var i := from as int;
      end, seen := start, clock;
      while i >= 0
        invariant -1 <= i <= from && clock >= old(clock) && SlotsLinked(hist(clock), insStack[..])
        invariant InLevel(hist(clock), if i < 0 then 0 else i, Some(end))
        invariant i < 0 ==> old(clock) <= seen < clock && insStack[0] == Next(end) && EndsAt(hist(seen), end)
        decreases Rank(), i + 1, Ahead(if i >= 0 then i else 0, Some(end))
      {
        var r := Read(i, Some(end));
        seen := clock - 1;
        SlotsGrow(hist(clock - 1), hist(clock), insStack[..]);
        var r' := Read(i, Some(end));
        SlotsGrow(hist(clock - 1), hist(clock), insStack[..]);
        if r.Some? {
          assert r.value in hist(clock - 1)[i] && r'.Some?;
          end := r'.value;
        } else {
          SetSlot(i, Next(end), r');
          if i > 0 {
            Below(hist(clock), i, Some(end));
          }
          i := i - 1;
        }
      }
    }

    /** The search came back null and the bottom slot is null too, so the call goes on with a null
        current node and runs to the end of the list.  If a node has been linked there by the time
        the end is confirmed, the restart reads through the null node. */
    method RunToEnd(ghost key: int) returns (fault: bool, ghost end: int, ghost seen: nat, ghost moment: nat)
      requires Valid() && PrevItem(insStack[0]).None? && InLevel(hist(clock), 0, Some(key))
      modifies this, insStack, nextStack
      ensures Valid() && RanToEnd(old(clock), fault, key, end, seen, moment)
    {
      hide IsList, Grows, SlotsLinked, History, Settled, Precedes, EndsAt;
      ghost var began := clock;
      var i, at := AboveNull();
      if at.None? {
        i, at := FirstList(key);
      }
      var last: int;
      last, seen := WalkToEnd(i, at.value);
      end := last;
      Grew(began, seen);
      LevelGrows(hist(began), hist(seen), 0, Some(key));
      EndIsLargest(hist(seen), end, key);
      var r := Read(0, Some(last));
      moment := clock - 1;
      SlotsGrow(hist(moment), hist(clock), insStack[..]);
      assert r.None? <==> EndsAt(hist(moment), end) by { EndRead(hist(moment), end); }
      fault := r.Some?;
      ins := if fault then None else Some(last);
    }

    ghost predicate RanToEnd(from: nat, fault: bool, start: int, end: int, seen: nat, moment: nat)
      reads this
    {
      && from <= seen < moment < clock
      && EndsAt(hist(seen), end) && start <= end && InLevel(hist(moment), 0, Some(end))
      && (fault <==> !EndsAt(hist(moment), end))
      && (!fault ==> ins == Some(end))
    }

    lemma QuietHasTail(key: int)
      requires World() && clock >= quiet && InLevel(hist(clock), 0, Some(key))
      ensures HasTail()
    {
      hide History;
      TailSettled(clock, 0);
      Grew(quiet, clock);
      TailCovers(hist(quiet)[0], tails(clock)[0], key);
    }

    /** The search loop in front of an attempt.  It ends with the stack at a node, or with a null node
        and a null bottom slot. */
    method FindCurrent()
      requires Valid() && ins.Some?
      modifies this, insStack, nextStack
      ensures Valid() && PrevItem(insStack[0]) == ins && clock >= old(clock) && InLevel(hist(clock), 0, old(ins))
      ensures old(PrevItem(insStack[0]) == ins) ==> ins == old(ins) && insStack[..] == old(insStack[..]) && clock == old(clock)
      ensures ins.None? ==> column && !old(HasTail()) && old(PrevItem(insStack[0])).None?
      ensures old(PrevItem(insStack[0])).None? && column && !old(HasTail()) ==> ins.None?
      ensures ins.Some? ==> ReachedFrom(old(clock), old(ins).value, old(CaughtUp(ins.value)), ins.value)
      ensures ins.Some? && column && (old(CaughtUp(ins.value)) || ins != old(ins)) ==> CaughtUp(ins.value)
      ensures old(PrevItem(insStack[0]) != ins) && (!column || old(HasTail())) ==>
        (ins == old(ins) <==> !column || old(CaughtUp(ins.value)))
      ensures old(clock) >= quiet ==> ins.Some?
      ensures old(clock) >= quiet && old(PrevItem(insStack[0]) != ins || Exact(hist(quiet), insStack[..], ins.value)) ==>
        Exact(hist(quiet), insStack[..], ins.value)
    {
      hide IsList, Grows, SlotsLinked, TailGrows, History, Settled, Exact;
      var key := ins.value;
      if clock >= quiet {
        QuietHasTail(key);
      }
      while PrevItem(insStack[0]) != ins
        invariant Valid() && clock >= old(clock) && InLevel(hist(clock), 0, Some(key))
        invariant clock == old(clock) ==> ins == old(ins)
        invariant clock == old(clock) || ins.None? ==> insStack[..] == old(insStack[..])
        invariant old(PrevItem(insStack[0]) == ins) ==> clock == old(clock)
        invariant ins.None? ==> column && !old(HasTail())
        invariant clock > old(clock) && ins.Some? ==> PrevItem(insStack[0]) == ins
        invariant ins.Some? ==> ReachedFrom(old(clock), key, old(CaughtUp(ins.value)), ins.value)
        invariant ins.Some? && column && (old(CaughtUp(ins.value)) || ins != old(ins)) ==> CaughtUp(ins.value)
        invariant clock > old(clock) && (!column || old(HasTail())) ==> (ins == old(ins) <==> !column || old(CaughtUp(ins.value)))
        invariant clock > old(clock) && old(PrevItem(insStack[0])).None? && column && !old(HasTail()) ==> ins.None?
        invariant old(clock) >= quiet && clock > old(clock) ==> ins.Some? && Exact(hist(quiet), insStack[..], ins.value)
        decreases PrevItem(insStack[0]) != ins, Rank()
      {
        if clock >= quiet {
          QuietHasTail(key);
        }
        Search(key);
      }
    }

    /** `origin` is the starting node, or a tail recorded since, short of it. */
    ghost predicate ReachedFrom(from: nat, start: int, caught: bool, origin: int)
      reads this`clock
    {
      origin == start || (column && !caught && origin < start && WasTail(from, origin))
    }

    /** One attempt: search if the stack is not at the current node, then step back. */
    method Attempt() returns (done: bool, fault: bool, ghost trace: Trace)
      requires Valid() && ins.Some?
      modifies this, insStack, nextStack
      ensures Valid() && clock > old(clock)
      ensures trace.lost ==> done && column && !old(HasTail()) && RanToEnd(old(clock), fault, old(ins).value, trace.origin, trace.seen, trace.moment)
      ensures old(PrevItem(insStack[0])).None? ==> (trace.lost <==> column && !old(HasTail()))
      ensures !trace.lost ==> !fault && ReachedFrom(old(clock), old(ins).value, old(CaughtUp(ins.value)), trace.origin)
      ensures !trace.lost && column && (old(CaughtUp(ins.value)) || trace.origin != old(ins).value) ==> CaughtUp(trace.origin)
      ensures !trace.lost && old(PrevItem(insStack[0]) != ins) && (!column || old(HasTail())) ==>
        (trace.origin == old(ins).value <==> !column || old(CaughtUp(ins.value)))
      ensures !trace.lost && done ==> old(clock) <= trace.moment < clock && ComesBefore(hist(trace.moment), ins, trace.origin)
      ensures !done ==> ins == Some(trace.origin) && PrevItem(insStack[0]) != ins
      ensures old(clock) >= quiet && old(PrevItem(insStack[0]) != ins || Exact(hist(quiet), insStack[..], ins.value)) ==>
        done && !trace.lost && (ins.Some? ==> Exact(hist(quiet), insStack[..], ins.value))
      ensures old(clock) >= quiet && old(Exact(hist(quiet), insStack[..], ins.value)) ==> trace.origin == old(ins).value
    {
      hide IsList, Grows, SlotsLinked, TailGrows, History, Settled, Exact, Precedes, IsBefore, BeforeFrom, EndsAt;
      ghost var began, start := clock, ins.value;
      if began >= quiet && Exact(hist(quiet), insStack[..], start) {
        Grew(quiet, clock);
        ExactBottom(hist(quiet), insStack[..], start);
      }
      FindCurrent();
      ghost var searched := clock;
      ghost var origin, seen, moment;
      if ins.None? {
        fault, origin, seen, moment := RunToEnd(start);
        return true, fault, Trace(origin, moment, true, seen);
      }
      origin := ins.value;
      done, moment := StepBack();
      fault, trace := false, Trace(origin, moment, false, 0);
      WasTailKept(began, searched, origin);
      if column && CaughtUpAt(searched, origin) {
        StaysCaughtUp(searched, origin);
      }
    }

    ghost predicate CaughtUpAt(t: nat, k: int) {
      |tails(t)| == DEPTH && tails(t)[0].Some? && k <= tails(t)[0].value
    }

    lemma WasTailKept(from: nat, till: nat, k: int)
      requires till <= clock
      ensures (exists t :: from <= t < till && |tails(t)| == DEPTH && tails(t)[0] == Some(k)) ==> WasTail(from, k)
    {
    }

    /** Whether the node a call ended at comes before the starting node. */
    lemma Judge(from: nat, trace: Trace, start: int)
      requires World() && from <= trace.moment < clock && InLevel(hist(from), 0, Some(start))
      requires if trace.lost then ins == Some(trace.origin) && EndsAt(hist(trace.moment), trace.origin) && start <= trace.origin
               else ComesBefore(hist(trace.moment), ins, trace.origin)
      ensures ComesBefore(hist(trace.moment), ins, start) <==> !trace.lost && trace.origin == start
    {
      hide IsList, Grows, TailGrows, History, Settled, Precedes, ComesBefore, EndsAt;
      Grew(from, trace.moment);
      LevelGrows(hist(from), hist(trace.moment), 0, Some(start));
      if trace.lost {
        EndIsNotBefore(hist(trace.moment), trace.origin, start);
      } else {
        FoundForOrigin(hist(trace.moment), ins, trace.origin, start);
      }
    }

    /** Move back one position.  Unless the search came back null, the node found came directly before
        the starting node at some moment of the call, or the starting node was first then; only a
        column search that reads a tail which has not caught up exchanges the starting node for that
        tail.  A column search with no tail to read comes back null, and then the call ends at the
        last node of the list.  With inserts at rest and an exact stack there is no second attempt,
        and the stack is exact again. */
    method SkipPrev() returns (fault: bool, ghost trace: Trace, ghost attempts: nat)
      requires Valid() && ins.Some?
      modifies this, insStack, nextStack
      ensures Valid() && clock > old(clock)
      ensures !trace.lost ==> !fault && old(clock) <= trace.moment < clock && ComesBefore(hist(trace.moment), ins, trace.origin)
      ensures !trace.lost ==> ReachedFrom(old(clock), old(ins).value, old(CaughtUp(ins.value)), trace.origin)
      ensures trace.lost ==> column && !old(HasTail()) && RanToEnd(old(clock), fault, old(ins).value, trace.origin, trace.seen, trace.moment)
      ensures old(PrevItem(insStack[0])).None? ==> (trace.lost <==> column && !old(HasTail()))
      ensures old(PrevItem(insStack[0])).None? && !fault ==>
        (ComesBefore(hist(trace.moment), ins, old(ins).value) <==> !column || old(CaughtUp(ins.value)))
      ensures old(PrevItem(insStack[0]) != ins) && (!column || old(HasTail())) ==>
        (trace.origin == old(ins).value <==> !column || old(CaughtUp(ins.value)))
      ensures old(clock) >= quiet ==> !trace.lost
      ensures old(clock) >= quiet && old(Exact(hist(quiet), insStack[..], ins.value)) ==>
        attempts == 1 && trace.origin == old(ins).value && (ins.Some? ==> Exact(hist(quiet), insStack[..], ins.value))
    {
      hide IsList, Grows, SlotsLinked, TailGrows, History, Settled, Exact, Precedes, ComesBefore, EndsAt;
      ghost var start, exact := ins.value, Exact(hist(quiet), insStack[..], ins.value);
      ghost var caught, tail, searched := CaughtUp(ins.value), HasTail(), PrevItem(insStack[0]) != ins;
      ghost var bare := PrevItem(insStack[0]).None?;
      if clock >= quiet {
        QuietHasTail(start);
      }
      attempts, trace, fault := 0, Trace(start, 0, false, 0), false;
      var done := false;
      while !done
        invariant Valid() && clock >= old(clock) && (attempts > 0 ==> clock > old(clock)) && (tail ==> HasTail())
        invariant done && !trace.lost ==> old(clock) <= trace.moment < clock && ComesBefore(hist(trace.moment), ins, trace.origin)
        invariant trace.lost ==> done && column && !tail && RanToEnd(old(clock), fault, start, trace.origin, trace.seen, trace.moment)
        invariant !done ==> ins == Some(trace.origin)
        invariant !trace.lost ==> !fault && ReachedFrom(old(clock), start, caught, trace.origin)
        invariant !trace.lost && column && (caught || trace.origin != start) ==> CaughtUp(trace.origin)
        invariant attempts == 0 ==> clock == old(clock) && !done && !trace.lost && insStack[..] == old(insStack[..])
        invariant attempts > 0 && bare ==> (trace.lost <==> column && !tail)
        invariant attempts > 0 && searched && (!column || tail) ==> (trace.origin == start <==> !column || caught)
        invariant old(clock) >= quiet && exact ==> trace.origin == start
        invariant old(clock) >= quiet && exact && !done ==> attempts == 0 && Exact(hist(quiet), insStack[..], start)
        invariant old(clock) >= quiet && exact && done ==> attempts == 1 && (ins.Some? ==> Exact(hist(quiet), insStack[..], ins.value))
        invariant attempts > 0 && !done ==> insStack.Length > 0 && PrevItem(insStack[0]) != ins
        decreases !done, Rank(), attempts == 0
      {
        done, fault, trace := Attempt();
        attempts := attempts + 1;
        TailStays(old(clock));
      }
      if bare && !fault {
        Judge(old(clock), trace, start);
      }
    }

    /** With inserts at rest, repeated calls list everything before the current node in reverse and
        end with a null position. */
    method ListBack(ghost index: nat) returns (out: seq<int>)
      requires Valid() && clock >= quiet && |hist(quiet)| == DEPTH && index < |hist(quiet)[0]|
      requires ins == Some(hist(quiet)[0][index]) && Exact(hist(quiet), insStack[..], ins.value)
      modifies this, insStack, nextStack
      ensures ins.None?
      ensures out == Reverse(hist(quiet)[0][..index])
    {
      hide IsList, Grows, SlotsLinked, TailGrows, Settled, Exact, Precedes, CaughtUp;
      ghost var s, n := hist(quiet)[0], index as int;
      out := [];
      Grew(quiet, clock);
      while ins.Some?
        invariant Valid() && clock >= quiet && -1 <= n <= index
        invariant ins == if n < 0 then None else Some(s[n])
        invariant n >= 0 ==> Exact(hist(quiet), insStack[..], s[n])
        invariant out + Reverse(s[..if n < 0 then 0 else n]) == Reverse(s[..index])
        decreases n + 1
      {
        var fault;
        ghost var trace, attempts;
        fault, trace, attempts := SkipPrev();
        Grew(quiet, trace.moment);
        NodeBefore(hist(quiet), ins, n);
        if ins.Some? {
          out := out + [ins.value];
          assert s[..n] == s[..n - 1] + [s[n - 1]];
          ReverseSnoc(s[..n - 1], s[n - 1]);
        }
        n := n - 1;
      }
    }
  }

  /** What was found comes before the origin, so before the starting node only if they are the same. */
  lemma FoundForOrigin(l: List, p: Option<int>, origin: int, start: int)
    requires IsList(l) && start in l[0] && ComesBefore(l, p, origin)
    ensures ComesBefore(l, p, start) <==> origin == start
  {
    assert origin in l[0] && (Above(p, origin) && Above(p, start) ==> origin < start || start <= origin);
  }

  /** The last node of the list comes before nothing in it, least of all before the starting node. */
  lemma EndIsNotBefore(l: List, end: int, start: int)
    requires IsList(l) && EndsAt(l, end) && start <= end
    ensures !ComesBefore(l, Some(end), start)
  {
  }

  /** Records 1 and 2 are linked but the recorded tail is still 1: stepping back from 2 finds nothing,
      so a backward scan never returns record 1. */
  method SkippedRecord() returns (f: Finger)
    ensures fresh(f) && f.ins.None?
  {
    hide Precedes;
    var list: List := [[1, 2], [], [], [], [], [], [], [], [], []];
    var hist: nat -> List := _ => list;
    var tails: nat -> seq<Option<int>> := t => [Some(if t == 0 then 1 else 2), None, None, None, None, None, None, None, None, None];
    LaggingHistory(hist, tails, list);
    f := new Finger(hist, tails, true, 1, 2);
    var fault;
    ghost var trace, attempts;
    fault, trace, attempts := f.SkipPrev();
    assert trace.origin == 1 == list[0][0];
    NodeBefore(list, f.ins, 0);
  }

  /** Record 1 is linked but no tail is recorded yet: stepping back from 1 finds 1 again. */
  method RepeatedRecord() returns (f: Finger)
    ensures fresh(f) && f.ins == Some(1)
  {
    hide Precedes;
    var list: List := [[1], [], [], [], [], [], [], [], [], []];
    var hist: nat -> List := _ => list;
    var tails: nat -> seq<Option<int>> := t => [if t == 0 then None else Some(1), None, None, None, None, None, None, None, None, None];
    TaillessHistory(hist, tails, list);
    f := new Finger(hist, tails, true, 1, 1);
    var fault;
    ghost var trace, attempts;
    fault, trace, attempts := f.SkipPrev();
    assert trace.lost && trace.origin in list[0];
  }

  lemma TaillessHistory(hist: nat -> List, tails: nat -> seq<Option<int>>, list: List)
    requires list == [[1], [], [], [], [], [], [], [], [], []] && forall t :: hist(t) == list
    requires forall t :: tails(t) == [if t == 0 then None else Some(1), None, None, None, None, None, None, None, None, None]
    ensures History(hist, tails) && Settled(hist, tails, 1) && IsList(list) && 1 in list[0]
  {
    assert list[0][0] == 1;
    assert 1 in list[0];
  }

  lemma LaggingHistory(hist: nat -> List, tails: nat -> seq<Option<int>>, list: List)
    requires list == [[1, 2], [], [], [], [], [], [], [], [], []] && forall t :: hist(t) == list
    requires forall t :: tails(t) == [Some(if t == 0 then 1 else 2), None, None, None, None, None, None, None, None, None]
    ensures History(hist, tails) && Settled(hist, tails, 1) && IsList(list) && 2 in list[0]
  {
    assert list[0][0] == 1 && list[0][1] == 2;
    assert 2 in list[0] && 1 in list[0];
  }

  /** Each level of the stack points at the last node of that level not after `k`. */
  ghost predicate Exact(l: List, slots: seq<Slot>, k: int) {
    ExactFrom(l, slots, k, 0)
  }

  ghost predicate ExactFrom(l: List, slots: seq<Slot>, k: int, from: nat) {
    |slots| == DEPTH == |l| && forall i :: from <= i < DEPTH ==> IsLast(l[i], PrevItem(slots[i]), k)
  }

  /** Each level from `from` up points at the last node of that level before `k`. */
  ghost predicate BeforeFrom(l: List, slots: seq<Slot>, k: int, from: nat) {
    |slots| == DEPTH == |l| && forall i :: from <= i < DEPTH ==> IsBefore(l[i], PrevItem(slots[i]), k)
  }

  lemma BeforeSet(l: List, slots: seq<Slot>, k: int, i: nat, slot: Slot)
    requires IsList(l) && i < DEPTH && BeforeFrom(l, slots, k, i + 1) && InLevel(l, i, PrevItem(slot))
    requires Follow(l[i], PrevItem(slot)) == Some(k)
    ensures BeforeFrom(l, slots[i := slot], k, i)
  {
    FollowIs(l[i], PrevItem(slot));
  }

  /** A stack that points just before a node on every level is exact for the node before it. */
  lemma BackOne(l: List, slots: seq<Slot>, k: int)
    requires IsList(l) && BeforeFrom(l, slots, k, 0) && PrevItem(slots[0]).Some?
    ensures Exact(l, slots, PrevItem(slots[0]).value)
  {
  }

  lemma ExactBottom(l: List, slots: seq<Slot>, k: int)
    requires IsList(l) && Exact(l, slots, k) && InLevel(l, 0, Some(k))
    ensures PrevItem(slots[0]) == Some(k)
  {
    assert IsLast(l[0], PrevItem(slots[0]), k);
  }

  function Reverse(s: seq<int>): seq<int> {
    if s == [] then [] else Reverse(s[1..]) + [s[0]]
  }

  lemma {:induction false} ReverseSnoc(s: seq<int>, x: int)
    ensures Reverse(s + [x]) == [x] + Reverse(s)
  {
    if s != [] {
      assert (s + [x])[1..] == s[1..] + [x];
      ReverseSnoc(s[1..], x);
    }
  }

  lemma NodeBefore(l: List, p: Option<int>, n: nat)
    requires IsList(l) && n < |l[0]| && ComesBefore(l, p, l[0][n])
    ensures p == if n == 0 then None else Some(l[0][n - 1])
  {
    var s := l[0];
    assert Sorted(s) && (n > 0 ==> s[n - 1] in s && Above(None, s[n - 1]));
    if p.Some? {
      var j :| 0 <= j < |s| && s[j] == p.value;
    }
  }

  lemma TailCovers(s: seq<int>, tail: Option<int>, k: int)
    requires IsTail(s, tail) && k in s
    ensures tail.Some?
  {
    assert !Above(tail, k);
  }

  lemma BottomSlot(l: List, slots: seq<Slot>)
    requires SlotsLinked(l, slots)
    ensures InLevel(l, 0, PrevItem(slots[0]))
  {
  }

  lemma BeforeFollows(l: List, slots: seq<Slot>, k: int)
    requires IsList(l) && BeforeFrom(l, slots, k, 0) && InLevel(l, 0, Some(k))
    ensures Follow(l[0], PrevItem(slots[0])) == Some(k)
  {
    assert IsBefore(l[0], PrevItem(slots[0]), k);
    FollowIs(l[0], PrevItem(slots[0]));
  }

  lemma Unmoved(l: List, slots: seq<Slot>, i: nat, at: Option<int>, k: int)
    requires IsList(l) && SlotsLinked(l, slots) && i < DEPTH && PrevItem(slots[i]) == Some(k)
    requires at == if i + 1 < DEPTH then PrevItem(slots[i + 1]) else Some(k)
    ensures InLevel(l, i, Some(k)) && InLevel(l, i, at)
  {
    if i + 1 < DEPTH {
      assert InLevel(l, i + 1, at);
      Below(l, i + 1, at);
    }
  }

  /** Above the levels that point at node `k` itself, an exact stack points before it. */
  lemma UnmovedBefore(l: List, slots: seq<Slot>, k: int, i: nat)
    requires IsList(l) && i < DEPTH && Exact(l, slots, k) && (i + 1 < DEPTH ==> PrevItem(slots[i + 1]) != Some(k))
    ensures BeforeFrom(l, slots, k, i + 1)
    ensures i + 1 < DEPTH && PrevItem(slots[i + 1]).Some? ==> PrevItem(slots[i + 1]).value < k
  {
    if i + 1 < DEPTH {
      assert IsLast(l[i + 1], PrevItem(slots[i + 1]), k);
      assert k !in l[i + 1];
    }
  }

  ghost predicate ComesBefore(l: List, p: Option<int>, k: int) {
    l != [] && Precedes(l[0], p, k)
  }

  ghost predicate AtTails(l: List, slots: seq<Slot>, last: int, n: nat) {
    && |slots| == DEPTH == |l|
    && slots[0] == Next(last)
    && forall i :: 1 <= i < n && i < DEPTH ==> IsTail(l[i], PrevItem(slots[i]))
  }

  lemma AtTailsExact(l: List, slots: seq<Slot>, last: int)
    requires IsList(l) && AtTails(l, slots, last, DEPTH) && IsTail(l[0], Some(last))
    ensures Exact(l, slots, last)
  {
  }

  ghost predicate InLevel(l: List, i: nat, p: Option<int>) {
    p.Some? ==> i < |l| && p.value in l[i]
  }

  /** Every slot lies in the head or in a node that is linked at the slot's level. */
  ghost predicate SlotsLinked(l: List, slots: seq<Slot>) {
    |slots| == DEPTH == |l| && forall i :: 0 <= i < DEPTH ==> InLevel(l, i, PrevItem(slots[i]))
  }

  lemma SlotsGrow(a: List, b: List, slots: seq<Slot>)
    requires Grows(a, b) && SlotsLinked(a, slots)
    ensures SlotsLinked(b, slots)
  {
  }

  lemma SlotSet(l: List, slots: seq<Slot>, i: nat, slot: Slot)
    requires SlotsLinked(l, slots) && i < DEPTH && InLevel(l, i, PrevItem(slot))
    ensures SlotsLinked(l, slots[i := slot])
  {
  }

  lemma Below(l: List, i: nat, p: Option<int>)
    requires IsList(l) && 0 < i < DEPTH && InLevel(l, i, p)
    ensures InLevel(l, i - 1, p)
  {
    if p.Some? {
      var k := p.value;
      assert k in l[i];
      assert k in l[i - 1];
    }
  }

  lemma LevelGrows(a: List, b: List, i: nat, p: Option<int>)
    requires Grows(a, b) && InLevel(a, i, p)
    ensures InLevel(b, i, p)
  {
    if p.Some? {
      var k := p.value;
      assert k in a[i];
      assert k in b[i];
    }
  }

  /** Nothing at level `i` lies between `from` and what sorts after the key. */
  lemma Dropped(l: List, slots: seq<Slot>, key: int, i: nat, from: Option<int>)
    requires IsList(l) && i < DEPTH && ExactFrom(l, slots, key, i + 1) && InLevel(l, i, from) && Above(from, key)
    requires Follow(l[i], from).Some? ==> Follow(l[i], from).value > key
    ensures ExactFrom(l, slots[i := SlotOf(from)], key, i)
  {
    FollowIs(l[i], from);
  }

  lemma Matched(l: List, slots: seq<Slot>, key: int, i: nat)
    requires IsList(l) && i < DEPTH && ExactFrom(l, slots, key, i + 1) && InLevel(l, i, Some(key))
    ensures Exact(l, seq(i + 1, _ => Next(key)) + slots[i + 1..], key)
  {
  }
}
