/** The program's own loops over the queue arrays.  Every method is one lock-protected region and
    is proved against the functions of `LruQueue` and `QueueRefill`.

    `rest` stands for the references queued in the other queues: with it, each method shows that
    page flags and queue slots still agree. */
module EvictQueue {
  import opened Options
  import opened LruQueue
  import opened QueueRefill

  /** The pages that carry WT_PAGE_EVICT_LRU. */
  class PageFlags {
    var lru: set<Ref>

    constructor ()
      ensures lru == {}
    {
      lru := {};
    }
  }

  /** References in the ordinary in-memory state, and the busy count of every tree. */
  class Trees {
    var mem: set<Ref>
    var busy: map<nat, nat>

    constructor (mem: set<Ref>)
      ensures this.mem == mem && busy == map[]
    {
      this.mem, busy := mem, map[];
    }

    function Busy(tree: nat): nat
      reads this
    {
      if tree in busy then busy[tree] else 0
    }
  }

  /** A page met by the tree walk, in walk order: is it one eviction wants, and its score. */
  datatype Seen = Seen(ref: Ref, wanted: bool, score: nat)

  /** A visit of the walk to one tree: how many pages to queue from it, and the pages it meets. */
  datatype Visit = Visit(target: nat, pages: seq<Seen>)

  /** The pages a visit queues: the first `n` it wants that carry no flag yet. */
  function Picks(seen: seq<Seen>, lru: set<Ref>, n: nat): (p: seq<Seen>)
    ensures |p| <= n
  {
    if n == 0 || seen == [] then []
    else if seen[0].ref in lru || !seen[0].wanted then Picks(seen[1..], lru, n)
    else [seen[0]] + Picks(seen[1..], lru + {seen[0].ref}, n - 1)
  }

  function Refs(p: seq<Seen>): set<Ref> {
    set s | s in p :: s.ref
  }

  /** What is queued is wanted and was unflagged, each page once; and with room to spare every wanted
      page ends up flagged. */
  lemma {:induction false} PicksAre(seen: seq<Seen>, lru: set<Ref>, n: nat)
    ensures var p := Picks(seen, lru, n);
      && (forall s :: s in p ==> s in seen && s.wanted && s.ref !in lru)
      && Distinct(p)
      && (|p| < n ==> forall s :: s in seen && s.wanted ==> s.ref in lru + Refs(p))
  {
    if n > 0 && seen != [] {
      var s := seen[0];
      if s.ref in lru || !s.wanted {
        PicksAre(seen[1..], lru, n);
      } else {
        PicksAre(seen[1..], lru + {s.ref}, n - 1);
        var p := Picks(seen[1..], lru + {s.ref}, n - 1);
        RefsCons(s, p);
        RefsOne(s);
        DistinctAppend([s], p);
      }
    }
  }

  /** One page of a visit, with `p` queued before it. */
  lemma PicksNext(p: seq<Seen>, seen: seq<Seen>, i: nat, lru: set<Ref>, n: nat)
    requires i < |seen| && n > 0
    ensures p + Picks(seen[i..], lru, n) ==
      if seen[i].ref in lru || !seen[i].wanted then p + Picks(seen[i + 1..], lru, n)
      else (p + [seen[i]]) + Picks(seen[i + 1..], lru + {seen[i].ref}, n - 1)
  {
    assert seen[i..][1..] == seen[i + 1..];
  }

  lemma PicksDone(seen: seq<Seen>, lru: set<Ref>, n: nat)
    requires seen == [] || n == 0
    ensures Picks(seen, lru, n) == []
  {
  }

  lemma WalkPicksDone(visits: seq<Visit>, lru: set<Ref>, room: nat)
    requires visits == [] || room == 0
    ensures WalkPicks(visits, lru, room) == []
  {
  }

  /** One visit of a walk, with `p` queued before it. */
  lemma WalkPicksNext(p: seq<Seen>, visits: seq<Visit>, i: nat, lru: set<Ref>, room: nat)
    requires i < |visits| && room > 0
    ensures var more := Picks(visits[i].pages, lru, Least(visits[i].target, room));
      p + WalkPicks(visits[i..], lru, room) == (p + more) + WalkPicks(visits[i + 1..], lru + Refs(more), room - |more|)
  {
    assert visits[i..][1..] == visits[i + 1..];
  }

  lemma RefsCons(s: Seen, p: seq<Seen>)
    ensures Refs([s] + p) == {s.ref} + Refs(p)
  {
    assert forall x :: x in [s] + p <==> x == s || x in p;
  }

  lemma RefsOne(s: Seen)
    ensures Refs([s]) == {s.ref}
  {
    assert s in [s];
  }

  lemma RefsAppend(a: seq<Seen>, b: seq<Seen>)
    ensures Refs(a + b) == Refs(a) + Refs(b)
  {
  }

  /** Pages are picked in the order they are met. */
  lemma {:induction false} PicksInOrder(a: seq<Seen>, b: seq<Seen>, lru: set<Ref>, n: nat)
    ensures var p := Picks(a, lru, n); Picks(a + b, lru, n) == p + Picks(b, lru + Refs(p), n - |p|)
  {
    if a == [] {
      LaidNone([], 0);
      assert a + b == b && lru + {} == lru;
    } else if n > 0 {
      var s := a[0];
      assert (a + b)[0] == s && (a + b)[1..] == a[1..] + b;
      if s.ref in lru || !s.wanted {
        PicksInOrder(a[1..], b, lru, n);
      } else {
        var p := Picks(a[1..], lru + {s.ref}, n - 1);
        PicksInOrder(a[1..], b, lru + {s.ref}, n - 1);
        RefsCons(s, p);
        assert lru + {s.ref} + Refs(p) == lru + Refs([s] + p);
      }
    }
  }

  /** The pages one walk queues, tree after tree, while there is room. */
  function WalkPicks(visits: seq<Visit>, lru: set<Ref>, room: nat): (p: seq<Seen>)
    ensures |p| <= room
  {
    if visits == [] || room == 0 then []
    else
      var p := Picks(visits[0].pages, lru, Least(visits[0].target, room));
      p + WalkPicks(visits[1..], lru + Refs(p), room - |p|)
  }

  lemma {:induction false} WalkPicksAre(visits: seq<Visit>, lru: set<Ref>, room: nat)
    ensures Wants(visits, lru, WalkPicks(visits, lru, room))
  {
    hide Picks, Wants;
    if visits == [] || room == 0 {
      WantsNothing(visits, lru);
    } else {
      var a := Picks(visits[0].pages, lru, Least(visits[0].target, room));
      PicksAre(visits[0].pages, lru, Least(visits[0].target, room));
      WalkPicksAre(visits[1..], lru + Refs(a), room - |a|);
      WantsJoin(visits, lru, a, WalkPicks(visits[1..], lru + Refs(a), room - |a|));
    }
  }

  /** Every page is one some visit meets and wants, was unflagged, and is there once. */
  ghost predicate Wants(visits: seq<Visit>, lru: set<Ref>, p: seq<Seen>) {
    (forall s :: s in p ==> Wanted(visits, s) && s.ref !in lru) && Distinct(p)
  }

  lemma WantsNothing(visits: seq<Visit>, lru: set<Ref>)
    ensures Wants(visits, lru, [])
  {
  }

  lemma WantsJoin(visits: seq<Visit>, lru: set<Ref>, a: seq<Seen>, b: seq<Seen>)
    requires visits != [] && Distinct(a) && forall s :: s in a ==> s in visits[0].pages && s.wanted && s.ref !in lru
    requires Wants(visits[1..], lru + Refs(a), b)
    ensures Wants(visits, lru, a + b)
  {
    hide Wanted, Refs, Distinct;
    DistinctAppend(a, b);
    forall s | s in a + b ensures Wanted(visits, s) && s.ref !in lru {
      if s in a {
        WantedHere(visits, s);
      } else {
        WantedLater(visits, s);
      }
    }
  }

  /** Some visit meets the page and wants it. */
  ghost predicate Wanted(visits: seq<Visit>, s: Seen) {
    s.wanted && exists v :: v in visits && s in v.pages
  }

  lemma WantedHere(visits: seq<Visit>, s: Seen)
    requires visits != [] && s.wanted && s in visits[0].pages
    ensures Wanted(visits, s)
  {
    assert visits[0] in visits;
  }

  lemma WantedLater(visits: seq<Visit>, s: Seen)
    requires visits != [] && Wanted(visits[1..], s)
    ensures Wanted(visits, s)
  {
    var v :| v in visits[1..] && s in v.pages;
    assert v in visits;
  }

  ghost predicate Distinct(p: seq<Seen>) {
    forall i, j :: 0 <= i < j < |p| ==> p[i].ref != p[j].ref
  }

  lemma DistinctAppend(a: seq<Seen>, b: seq<Seen>)
    requires Distinct(a) && Distinct(b) && forall s :: s in b ==> s.ref !in Refs(a)
    ensures Distinct(a + b)
  {
    forall i, j | 0 <= i < j < |a + b| ensures (a + b)[i].ref != (a + b)[j].ref {
      if i < |a| <= j {
        assert a[i] in a && b[j - |a|] in b && a[i].ref in Refs(a);
      }
    }
  }

  function Least(a: nat, b: nat): nat {
    if a < b then a else b
  }

  function EntryOf(s: Seen): Entry {
    Entry(Some(s.ref.tree), Some(s.ref), s.score)
  }

  function SlotsOf(p: seq<Seen>): (s: seq<Entry>)
    ensures |s| == |p|
  {
    seq(|p|, k requires 0 <= k < |p| => EntryOf(p[k]))
  }

  /** The slots with pages `p` written from `start` up. */
  function Laid(slots: seq<Entry>, start: nat, p: seq<Seen>): (s: seq<Entry>)
    requires start + |p| <= |slots|
    ensures |s| == |slots|
  {
    slots[..start] + SlotsOf(p) + slots[start + |p|..]
  }

  ghost predicate FreeFrom(slots: seq<Entry>, n: nat) {
    forall k :: n <= k < |slots| ==> slots[k].ref.None?
  }

  lemma LaidFree(slots: seq<Entry>, start: nat, p: seq<Seen>)
    requires start + |p| <= |slots| && FreeFrom(slots, start)
    ensures FreeFrom(Laid(slots, start, p), start + |p|)
  {
  }

  lemma LaidNone(slots: seq<Entry>, start: nat)
    requires start <= |slots|
    ensures Laid(slots, start, []) == slots && Refs([]) == {}
  {
  }

  lemma LaidOne(slots: seq<Entry>, start: nat, p: seq<Seen>, s: Seen)
    requires start + |p| < |slots|
    ensures Laid(slots, start, p)[start + |p| := EntryOf(s)] == Laid(slots, start, p + [s])
    ensures Refs(p + [s]) == Refs(p) + {s.ref}
  {
    RefsOne(s);
    RefsAppend(p, [s]);
    assert SlotsOf(p + [s]) == SlotsOf(p) + [EntryOf(s)];
  }

  lemma LaidMore(slots: seq<Entry>, start: nat, p: seq<Seen>, more: seq<Seen>)
    requires start + |p| + |more| <= |slots|
    ensures Laid(Laid(slots, start, p), start + |p|, more) == Laid(slots, start, p + more)
    ensures Refs(p + more) == Refs(p) + Refs(more)
  {
    RefsAppend(p, more);
    assert SlotsOf(p + more) == SlotsOf(p) + SlotsOf(more);
  }

  /** How many entries a walk may add to a queue that has `entries`. */
  function Room(entries: nat, pagesInUse: nat): nat {
    Below(entries, Least(Least(entries + WALK_INCR, EVICT_SLOTS), 1 + pagesInUse / 2))
  }

  function Below(start: nat, limit: nat): nat {
    if start < limit then limit - start else 0
  }

  /** A walk may add `n` entries: no more than its increment, nothing beyond the last slot, and nothing
      once the queue holds more than half the pages in use. */
  ghost predicate HasRoom(entries: nat, pagesInUse: nat, n: nat) {
    n <= WALK_INCR && entries + n <= EVICT_SLOTS && (n > 0 ==> 2 * (entries + n - 1) <= pagesInUse)
  }

  lemma RoomIsMost(entries: nat, pagesInUse: nat)
    requires entries <= EVICT_SLOTS
    ensures HasRoom(entries, pagesInUse, Room(entries, pagesInUse))
    ensures !HasRoom(entries, pagesInUse, Room(entries, pagesInUse) + 1)
  {
  }

  /** Trees with a target of at least `room` have all the pages they want flagged. */
  ghost predicate AllTaken(visits: seq<Visit>, room: nat, flagged: set<Ref>) {
    forall v, s :: v in visits && v.target >= room && s in v.pages && s.wanted ==> s.ref in flagged
  }

  lemma AllTakenJoin(visits: seq<Visit>, room: nat, less: nat, flagged: set<Ref>)
    requires visits != [] && less <= room && AllTaken([visits[0]], room, flagged) && AllTaken(visits[1..], less, flagged)
    ensures AllTaken(visits, room, flagged)
  {
    forall v | v in visits ensures v in [visits[0]] || v in visits[1..] {
    }
  }

  /** A walk fills its room or leaves no wanted page unflagged in a tree with no smaller target. */
  lemma {:induction false} WalkPicksMost(visits: seq<Visit>, lru: set<Ref>, room: nat)
    ensures |WalkPicks(visits, lru, room)| < room ==> AllTaken(visits, room, lru + Refs(WalkPicks(visits, lru, room)))
  {
    hide Picks, AllTaken, Distinct, Refs;
    if |WalkPicks(visits, lru, room)| < room {
      if visits == [] {
        NoneTaken(room, lru);
      } else {
        var a := Picks(visits[0].pages, lru, Least(visits[0].target, room));
        var b := WalkPicks(visits[1..], lru + Refs(a), room - |a|);
        WalkPicksMost(visits[1..], lru + Refs(a), room - |a|);
        RefsAppend(a, b);
        assert lru + Refs(a) + Refs(b) == lru + Refs(a + b);
        FirstTaken(visits[0], lru, room, lru + Refs(a + b));
        AllTakenJoin(visits, room, room - |a|, lru + Refs(a + b));
      }
    }
  }

  lemma NoneTaken(room: nat, lru: set<Ref>)
    ensures AllTaken([], room, lru + Refs(WalkPicks([], lru, room)))
  {
  }

  lemma FirstTaken(visit: Visit, lru: set<Ref>, room: nat, flagged: set<Ref>)
    requires |Picks(visit.pages, lru, Least(visit.target, room))| < room
    requires lru + Refs(Picks(visit.pages, lru, Least(visit.target, room))) <= flagged
    ensures AllTaken([visit], room, flagged)
  {
    hide Picks, Refs, Distinct;
    PicksAre(visit.pages, lru, Least(visit.target, room));
  }

  /** The pages `p` stand in the slots from `start` up, each with its tree and its score. */
  ghost predicate Appended(was: seq<Entry>, now: seq<Entry>, start: nat, p: seq<Seen>) {
    && |now| == |was| && start + |p| <= |now|
    && (forall k :: 0 <= k < |p| ==> now[start + k] == Entry(Some(p[k].ref.tree), Some(p[k].ref), p[k].score))
    && (forall k :: 0 <= k < |now| && (k < start || k >= start + |p|) ==> now[k] == was[k])
  }

  lemma LaidAppends(slots: seq<Entry>, start: nat, p: seq<Seen>)
    requires start + |p| <= |slots|
    ensures Appended(slots, Laid(slots, start, p), start, p)
  {
    forall k | 0 <= k < |p| ensures Laid(slots, start, p)[start + k] == EntryOf(p[k]) {
      assert SlotsOf(p)[k] == EntryOf(p[k]);
    }
  }

  function AfterWalk(q: Queue, p: seq<Seen>): Queue
    requires q.entries + |p| <= |q.slots|
  {
    var n := q.entries + |p|;
    q.(slots := Laid(q.slots, q.entries, p), entries := n, max := if n > q.max then n else q.max)
  }

  /** A queue after a refill that found `p`: sorted and trimmed from what it had and what was found. */
  ghost predicate Refilled(q: Queue, q': Queue, p: seq<Seen>, debug: bool, aggressive: bool) {
    && q.entries + |p| <= |q.slots|
    && var w := AfterWalk(q, p);
       exists sorted :: IsSorting(w.slots[..w.entries], sorted, debug) && q' == Refill(w, sorted, aggressive)
  }

  class EvictQueue {
    const slots: array<Entry>
    var current: Option<nat>
    var candidates: nat
    var entries: nat
    var max: nat

    constructor ()
      ensures fresh(slots) && Ready(Abs()) && UrgentReady(Abs()) && Bag(Abs().slots) == multiset{}
    {
      slots := new Entry[EVICT_SLOTS](_ => Entry(None, None, 0));
      current, candidates, entries, max := None, 0, 0, 0;
      new;
      BagOfCleared(slots[..]);
    }

    ghost function Abs(): (q: Queue)
      reads this, slots
    {
      Queue(slots[..], current, candidates, entries, max)
    }

    ghost predicate Valid(pages: PageFlags, rest: multiset<Ref>)
      reads this, slots, pages
    {
      Shape(Abs()) && Agree(Bag(slots[..]) + rest, pages.lru)
    }

    method ListClear(pages: PageFlags, k: nat)
      requires k < slots.Length
      requires slots[k].ref.Some? ==> slots[k].ref.value in pages.lru
      modifies slots, pages
      ensures slots[..] == old(slots[..])[k := Clear(old(slots[k]))]
      ensures old(slots[k].ref.None?) ==> pages.lru == old(pages.lru)
      ensures old(slots[k].ref.Some?) ==> pages.lru == old(pages.lru) - {old(slots[k].ref).value}
    {
      if slots[k].ref.Some? {
        pages.lru := pages.lru - {slots[k].ref.value};
      }
      slots[k] := Clear(slots[k]);
    }

    /** Returns false, with nothing changed, when another thread has already queued the page. */
    method PushCandidate(pages: PageFlags, k: nat, ref: Ref, score: nat, ghost rest: multiset<Ref>) returns (ok: bool)
      requires Valid(pages, rest) && k < slots.Length
      modifies this`max, slots, pages
      ensures Valid(pages, rest)
      ensures ok == (ref !in old(pages.lru))
      ensures !ok ==> Abs() == old(Abs()) && pages.lru == old(pages.lru)
      ensures ok ==> Abs() == Push(old(Abs()), k, ref, score)
      ensures ok ==> pages.lru == old(pages.lru) + {ref} - Named(old(slots[k]))
      ensures ok ==> slots[..] == old(slots[..])[k := Entry(Some(ref.tree), Some(ref), score)] && max >= k + 1
    {
      hide Bag;
      ghost var was, lru := slots[..], pages.lru;
      if ref in pages.lru {
        return false;
      }
      PushAgrees(was, k, ref, score, lru, rest);
      pages.lru := pages.lru + {ref};
      if k >= max {
        max := k + 1;
      }
      if slots[k].ref.Some? {
        ListClear(pages, k);
      }
      slots[k] := Entry(Some(ref.tree), Some(ref), score);
      assert slots[..] == was[k := slots[k]];
      return true;
    }

    /** The per-page clear's pass over one queue. */
    method ClearPage(pages: PageFlags, ref: Ref, ghost rest: multiset<Ref>) returns (found: bool)
      requires Valid(pages, rest)
      modifies slots, pages
      ensures Valid(pages, rest)
      ensures Abs() == old(Abs()).(slots := ClearRef(old(slots[..]), max, ref))
      ensures found == (ref in Bag(old(slots[..])))
      ensures pages.lru == if found then old(pages.lru) - {ref} else old(pages.lru)
    {
      hide Bag;
      ghost var was, lru := slots[..], pages.lru;
      ClearRefAgrees(was, max, ref, lru, rest);
      var i := 0;
      while i < max
        invariant i <= max && slots[..] == was && pages.lru == lru
        invariant forall j :: 0 <= j < i ==> slots[j].ref != Some(ref)
      {
        if slots[i].ref == Some(ref) {
          assert Find(was, 0, max, ref) == i;
          ListClear(pages, i);
          return true;
        }
        i := i + 1;
      }
      assert Find(was, 0, max, ref) == max;
      return false;
    }

    /** The pass of exclusive access over one queue. */
    method ClearFile(pages: PageFlags, tree: nat, ghost rest: multiset<Ref>)
      requires Valid(pages, rest)
      modifies slots, pages
      ensures Valid(pages, rest)
      ensures Abs() == old(Abs()).(slots := ClearTree(old(slots[..]), max, tree))
      ensures pages.lru == old(pages.lru) - (set r | r in Bag(old(slots[..])) && r.tree == tree)
    {
      hide Bag;
      ghost var was, lru := slots[..], pages.lru;
      var i := 0;
      while i < max
        invariant i <= max && slots.Length == |was|
        invariant slots[..] == ClearTree(was, i, tree)
        invariant forall r :: r in pages.lru <==> r in lru && !NamedBelow(was, i, tree, r)
      {
        assert slots[..][i] == was[i];
        if slots[i].btree == Some(tree) {
          FlaggedOnce(was, i, lru, rest);
          ListClear(pages, i);
        }
        i := i + 1;
      }
      ClearTreeAgrees(was, max, tree, lru, pages.lru, rest);
    }

    /** Append a page to this queue as the urgent queue. */
    method PushUrgent(pages: PageFlags, ref: Ref, score: nat, evictDisabled: nat, ghost rest: multiset<Ref>) returns (queued: bool)
      requires Valid(pages, rest) && UrgentReady(Abs()) && slots.Length == EVICT_SLOTS
      modifies this`current, this`candidates, this`max, slots, pages
      ensures Valid(pages, rest) && UrgentReady(Abs())
      ensures queued <==>
        ref !in old(pages.lru) && evictDisabled == 0
        && (old(current).None? || old(current).value >= old(candidates) || old(candidates) < EVICT_SLOTS)
      ensures queued ==> var at := if old(current).None? || old(current).value >= old(candidates) then 0 else old(candidates);
        && slots[..] == old(slots[..])[at := Entry(Some(ref.tree), Some(ref), score)] && candidates == at + 1
        && current == if at == 0 then Some(0) else old(current)
      ensures queued ==> Abs() == Urgent(old(Abs()), ref, score) && pages.lru == old(pages.lru) + {ref}
      ensures queued ==> Bag(slots[..]) == Bag(old(slots[..])) + multiset{ref}
      ensures !queued ==> slots[..] == old(slots[..]) && pages.lru == old(pages.lru)
    {
      hide Bag;
      if ref in pages.lru || evictDisabled > 0 {
        return false;
      }
      ghost var q := Abs();
      RewindKeeps(q);
      if current.None? || current.value >= candidates {
        current := Some(0);
        candidates := 0;
      }
      if candidates < EVICT_SLOTS {
        UrgentAppends(q, ref, score);
        assert slots[..][candidates].ref.None?;
        queued := PushCandidate(pages, candidates, ref, score, rest);
        candidates := candidates + 1;
      } else {
        queued := false;
      }
    }

    method IsEmpty(serverCheck: bool) returns (empty: bool)
      ensures empty <==> current.None? || current.value >= if serverCheck && candidates > 1 then candidates / 2 else candidates
    {
      if current.None? {
        return true;
      }
      var n := candidates;
      if serverCheck && n > 1 {
        n := n / 2;
      }
      return current.value >= n;
    }

    method IsFull() returns (full: bool)
      ensures full <==> current == Some(0) && candidates > 0
    {
      return current == Some(0) && candidates != 0;
    }

    /** The candidate loop, up to the entry it stops at. */
    method ScanCandidates(pages: PageFlags, trees: Trees, limit: nat, skipDirty: bool, dirty: set<Ref>,
                          ghost rest: multiset<Ref>) returns (s: Scan)
      requires current.Some? && current.value <= slots.Length && limit <= slots.Length
      requires Agree(Bag(slots[..]) + rest, pages.lru)
      modifies slots, pages
      ensures s == ScanFrom(old(slots[..]), current.value, limit, if skipDirty then dirty else {}, trees.mem)
      ensures s.at <= slots.Length && slots[..] == ClearRange(old(slots[..]), current.value, s.at)
      ensures forall r :: r in pages.lru <==> r in old(pages.lru) && !NamedIn(old(slots[..]), current.value, s.at, r)
    {
      hide Bag, Agree;
      ghost var was, lru, cur := slots[..], pages.lru, current.value;
      ghost var decline := if skipDirty then dirty else {};
      var k := current.value;
      while k < limit
        invariant cur <= k <= slots.Length && (k <= limit || k == cur)
        invariant slots[..] == ClearRange(was, cur, k)
        invariant forall r :: r in pages.lru <==> r in lru && !NamedIn(was, cur, k, r)
        invariant ScanFrom(was, cur, limit, decline, trees.mem) == ScanFrom(was, k, limit, decline, trees.mem)
      {
        assert slots[..][k] == was[k];
        if slots[k].ref.Some? {
          var ref := slots[k].ref.value;
          if skipDirty && ref in dirty {
            return Scan.Declined(k);
          }
          if ref in trees.mem {
            return Locked(k);
          }
          FlaggedOnce(was, k, lru, rest);
          ListClear(pages, k);
        }
        k := k + 1;
      }
      return Exhausted(k);
    }

    /** Swap the reference to locked, count its tree as busy, and forget the entry. */
    method LockAndClear(pages: PageFlags, trees: Trees, k: nat) returns (handed: Option<Ref>)
      requires k < slots.Length && slots[k].ref.Some? && slots[k].ref.value in pages.lru * trees.mem
      modifies slots, pages, trees
      ensures handed == old(slots[k].ref)
      ensures slots[..] == old(slots[..])[k := Clear(old(slots[k]))] && pages.lru == old(pages.lru) - {handed.value}
      ensures trees.mem == old(trees.mem) - {handed.value}
      ensures trees.busy == old(trees.busy)[handed.value.tree := old(trees.Busy(handed.value.tree)) + 1]
    {
      var ref := slots[k].ref.value;
      trees.mem := trees.mem - {ref};
      trees.busy := trees.busy[ref.tree := trees.Busy(ref.tree) + 1];
      handed := Some(ref);
      ListClear(pages, k);
    }

    /** The candidate loop with its outcome: the entries passed are emptied, and the page it stops at
        is locked and its entry emptied too, if it can be. */
    method TakeEntry(pages: PageFlags, trees: Trees, limit: nat, skipDirty: bool, dirty: set<Ref>,
                     ghost rest: multiset<Ref>) returns (s: Scan, handed: Option<Ref>)
      requires current.Some? && current.value <= slots.Length && limit <= slots.Length
      requires WellTagged(slots[..], max) && Agree(Bag(slots[..]) + rest, pages.lru)
      modifies slots, pages, trees
      ensures WellTagged(slots[..], max) && Agree(Bag(slots[..]) + rest, pages.lru)
      ensures s == ScanFrom(old(slots[..]), current.value, limit, if skipDirty then dirty else {}, old(trees.mem))
      ensures s.at + (if s.Locked? then 1 else 0) <= slots.Length
      ensures slots[..] == ClearRange(old(slots[..]), current.value, if s.Locked? then s.at + 1 else s.at)
      ensures handed == if s.Locked? then old(slots[..])[s.at].ref else None
      ensures handed.None? ==> trees.mem == old(trees.mem) && trees.busy == old(trees.busy)
      ensures handed.Some? ==> handed.value in old(trees.mem) && trees.mem == old(trees.mem) - {handed.value}
      ensures handed.Some? ==>
        trees.busy == old(trees.busy)[handed.value.tree := old(trees.Busy(handed.value.tree)) + 1]
    {
      hide Bag, Agree, ClearRange, NamedIn, WellTagged, ScanFrom, Clear;
      handed := None;
      ghost var was, lru, cur := slots[..], pages.lru, current.value;
      s := ScanCandidates(pages, trees, limit, skipDirty, dirty, rest);
      ghost var end := if s.Locked? then s.at + 1 else s.at;
      if s.Locked? {
        ClearOneMore(was, cur, s.at, lru, pages.lru, rest);
        handed := LockAndClear(pages, trees, s.at);
      }
      assert slots[..] == ClearRange(was, cur, end);
      TakeAgrees(was, cur, end, max, lru, pages.lru, rest);
    }

    /** Hand out the first page this caller may take and can lock, and move the position on. */
    method GetRef(pages: PageFlags, trees: Trees, isServer: bool, isUrgentQueue: bool, urgentOk: bool, hard: bool,
                  dirty: set<Ref>, ghost rest: multiset<Ref>) returns (handed: Option<Ref>)
      requires Valid(pages, rest)
      modifies this`current, slots, pages, trees
      ensures Valid(pages, rest)
      ensures var q := old(Abs());
        var t := Take(q, ServerLimit(q, isServer && !isUrgentQueue), LeftAlone(isServer, urgentOk, hard, dirty), old(trees.mem));
        Abs() == t.queue && handed == t.handed
      ensures current.Some? ==> current.value < candidates
      ensures handed.None? ==> trees.mem == old(trees.mem) && trees.busy == old(trees.busy)
      ensures handed.Some? ==> handed.value in old(trees.mem) && trees.mem == old(trees.mem) - {handed.value}
      ensures handed.Some? ==>
        trees.busy == old(trees.busy)[handed.value.tree := old(trees.Busy(handed.value.tree)) + 1]
    {
      hide Bag, Agree, ClearRange, WellTagged, ScanFrom;
      handed := None;
      if current.None? {
        return;
      }
      var limit := if isServer && !isUrgentQueue && candidates > 1 then candidates / 2 else candidates;
      var s;
      s, handed := TakeEntry(pages, trees, limit, !urgentOk && (isServer || !hard), dirty, rest);
      var next := if s.Declined? then s.at else s.at + 1;
      current := if next < candidates then Some(next) else None;
    }

    /** Queue pages of one tree into the slots from `start` up. */
    method WalkTree(pages: PageFlags, start: nat, target: nat, seen: seq<Seen>, ghost rest: multiset<Ref>) returns (slot: nat)
      requires Valid(pages, rest) && start <= max && start + target <= slots.Length
      requires FreeFrom(slots[..], start)
      modifies this`max, slots, pages
      ensures Valid(pages, rest)
      ensures var p := Picks(seen, old(pages.lru), target);
        && slot == start + |p|
        && slots[..] == Laid(old(slots[..]), start, p)
        && max == (if slot > old(max) then slot else old(max))
        && pages.lru == old(pages.lru) + Refs(p)
    {
      hide Bag, Shape, Picks, Laid, Refs, Agree;
      slot := start;
      var i := 0;
      ghost var p, was, all := [], slots[..], Picks(seen, pages.lru, target);
      LaidNone(was, start);
      while slot < start + target && i < |seen|
        invariant Valid(pages, rest) && i <= |seen| && slot == start + |p| <= start + target
        invariant slots[..] == Laid(was, start, p)
        invariant max == if slot > old(max) then slot else old(max)
        invariant pages.lru == old(pages.lru) + Refs(p)
        invariant all == p + Picks(seen[i..], pages.lru, start + target - slot)
        decreases |seen| - i
      {
        var page := seen[i];
        PicksNext(p, seen, i, pages.lru, start + target - slot);
        i := i + 1;
        if page.ref in pages.lru || !page.wanted {
          continue;
        }
        LaidFree(was, start, p);
        assert slots[..][slot].ref.None? && Named(slots[slot]) == {};
        LaidOne(was, start, p, page);
        ghost var lru := pages.lru;
        var ok := PushCandidate(pages, slot, page.ref, page.score, rest);
        assert slots[..] == Abs().slots && pages.lru == lru + {page.ref};
        p := p + [page];
        slot := slot + 1;
      }
      assert p == all by { PicksDone(seen[i..], pages.lru, start + target - slot); }
    }

    /** Visit tree after tree while there is room below `limit`. */
    method WalkTrees(pages: PageFlags, start: nat, limit: nat, visits: seq<Visit>, ghost rest: multiset<Ref>) returns (slot: nat)
      requires Valid(pages, rest) && start <= max && limit <= slots.Length && start <= slots.Length
      requires FreeFrom(slots[..], start)
      modifies this`max, slots, pages
      ensures Valid(pages, rest)
      ensures var p := WalkPicks(visits, old(pages.lru), Below(start, limit));
        && slot == start + |p|
        && slots[..] == Laid(old(slots[..]), start, p)
        && max == (if slot > old(max) then slot else old(max))
        && pages.lru == old(pages.lru) + Refs(p)
    {
      hide Bag, Shape, Picks, WalkPicks, Laid, Refs, Agree, FreeFrom;
      slot := start;
      var i := 0;
      ghost var p, was, all := [], slots[..], WalkPicks(visits, pages.lru, Below(start, limit));
      LaidNone(was, start);
      while slot < limit && i < |visits|
        invariant Valid(pages, rest) && i <= |visits| && slot == start + |p| <= slots.Length
        invariant slot <= max && slots[..] == Laid(was, start, p)
        invariant max == if slot > old(max) then slot else old(max)
        invariant pages.lru == old(pages.lru) + Refs(p)
        invariant all == p + WalkPicks(visits[i..], pages.lru, Below(slot, limit))
        decreases |visits| - i
      {
        var target := if visits[i].target < limit - slot then visits[i].target else limit - slot;
        WalkPicksNext(p, visits, i, pages.lru, limit - slot);
        LaidFree(was, start, p);
        ghost var more := Picks(visits[i].pages, pages.lru, target);
        slot := WalkTree(pages, slot, target, visits[i].pages, rest);
        LaidMore(was, start, p, more);
        assert pages.lru == old(pages.lru) + Refs(p + more);
        p := p + more;
        i := i + 1;
      }
      assert p == all by { WalkPicksDone(visits[i..], pages.lru, Below(slot, limit)); }
    }

    /** The walk, from the first unused slot. */
    method Walk(pages: PageFlags, visits: seq<Visit>, pagesInUse: nat, ghost rest: multiset<Ref>)
      requires Valid(pages, rest) && Ready(Abs())
      modifies this`entries, this`max, slots, pages
      ensures Valid(pages, rest) && Walked(Abs())
      ensures Appended(old(slots[..]), slots[..], old(entries), WalkPicks(visits, old(pages.lru), Room(old(entries), pagesInUse)))
      ensures var p := WalkPicks(visits, old(pages.lru), Room(old(entries), pagesInUse));
        && old(entries) + |p| <= old(|Abs().slots|)
        && Abs() == AfterWalk(old(Abs()), p)
        && pages.lru == old(pages.lru) + Refs(p)
        && HasRoom(old(entries), pagesInUse, |p|)
    {
      hide Bag, Shape, WalkPicks, Laid, Refs, Agree, Ready, Walked, AfterWalk, FreeFrom, Appended;
      ReadyBounds(Abs());
      var maxEntries := if entries + WALK_INCR < EVICT_SLOTS then entries + WALK_INCR else EVICT_SLOTS;
      maxEntries := if maxEntries < 1 + pagesInUse / 2 then maxEntries else 1 + pagesInUse / 2;
      ghost var p := WalkPicks(visits, pages.lru, Room(entries, pagesInUse));
      RoomIsMost(entries, pagesInUse);
      var slot := WalkTrees(pages, entries, maxEntries, visits, rest);
      WalkedAfter(old(Abs()), Abs(), p);
      LaidAppends(old(slots[..]), entries, p);
      entries := slot;
    }

    method QSort(n: nat, debug: bool)
      requires n <= slots.Length
      modifies slots
      ensures IsSorting(old(slots[..n]), slots[..n], debug)
      ensures slots[n..] == old(slots[n..])
    {
      var sorted := Sort(slots[..n], debug);
      forall k | 0 <= k < n {
        slots[k] := sorted[k];
      }
      assert slots[..n] == sorted;
    }

    /** How many of the sorted entries this pass will try to evict. */
    method CountCandidates(aggressive: bool) returns (n: nat)
      requires 0 < entries <= slots.Length
      ensures n == Candidates(slots[..], entries, aggressive)
      ensures FairShare(slots[..], entries, aggressive, n)
    {
      CandidatesFair(slots[..], entries, aggressive);
      if aggressive {
        return entries;
      }
      var oldest, c := READGEN_START_VALUE, 0;
      while c < entries
        invariant c <= entries
        invariant LeadingSoon(slots[..], 0, entries) == LeadingSoon(slots[..], c, entries)
        invariant c > 0 ==> EvictSoon(oldest)
      {
        oldest := slots[c].score;
        if !EvictSoon(oldest) {
          break;
        }
        c := c + 1;
      }
      if EvictSoon(oldest) {
        return entries;
      } else if c > entries / 2 {
        return c;
      } else {
        return 1 + c + ((entries - c) - 1) / 3;
      }
    }

    /** Sort the walked queue, trim it and offer its head to the workers. */
    method SortAndTrim(pages: PageFlags, debug: bool, aggressive: bool, ghost rest: multiset<Ref>) returns (ghost sorted: seq<Entry>)
      requires Valid(pages, rest) && Walked(Abs())
      modifies this`current, this`candidates, this`entries, slots, pages
      ensures Valid(pages, rest) && Ready(Abs())
      ensures IsSorting(old(slots[..entries]), sorted, debug)
      ensures Abs() == Refill(old(Abs()), sorted, aggressive)
      ensures Offers(Abs(), debug, aggressive)
    {
      hide Bag, Shape, Ready, WellTagged, Agree, ClearRange, Candidates, LeadingSoon, Sorted, Offers;
      ghost var q := Abs();
      WalkedBounds(q);
      QSort(entries, debug);
      sorted := slots[..entries];
      ghost var s := slots[..];
      assert s == sorted + q.slots[entries..];
      SortedShape(q, sorted, debug);
      BagOfSorted(q, sorted, debug);
      RefillReady(q, sorted, debug, aggressive);
      RefillOffers(q, sorted, debug, aggressive);
      ReadyBounds(Refill(q, sorted, aggressive));
      TrimEmpty();
      TrimExcess(pages, rest);
      if entries == 0 {
        candidates, current := 0, None;
        return;
      }
      var n := CountCandidates(aggressive);
      candidates, current := n, Some(0);
    }

    method TrimEmpty()
      requires entries <= slots.Length
      modifies this`entries
      ensures entries == Trim(slots[..], old(entries))
    {
      while entries > 0 && slots[entries - 1].ref.None?
        invariant entries <= slots.Length && Trim(slots[..], entries) == Trim(slots[..], old(entries))
      {
        entries := entries - 1;
      }
    }

    /** Clear what exceeds the maximum tracked between walks. */
    method TrimExcess(pages: PageFlags, ghost rest: multiset<Ref>)
      requires entries <= slots.Length && WellTagged(slots[..], max) && Agree(Bag(slots[..]) + rest, pages.lru)
      modifies this`entries, slots, pages
      ensures entries == if old(entries) > WALK_BASE then WALK_BASE else old(entries)
      ensures slots[..] == ClearRange(old(slots[..]), entries, old(entries))
      ensures WellTagged(slots[..], max) && Agree(Bag(slots[..]) + rest, pages.lru)
    {
      hide Bag, Agree, WellTagged;
      ghost var s, lru, n := slots[..], pages.lru, entries;
      while entries > WALK_BASE
        invariant (if n > WALK_BASE then WALK_BASE else n) <= entries <= n
        invariant slots[..] == ClearRange(s, entries, n)
        invariant forall r :: r in pages.lru <==> r in lru && !NamedIn(s, entries, n, r)
      {
        entries := entries - 1;
        assert slots[..][entries] == s[entries];
        ClearOneLess(s, entries, n, lru, pages.lru, rest);
        if slots[entries].ref.Some? {
          ListClear(pages, entries);
        }
        assert slots[..] == ClearRange(s, entries, n);
      }
      TakeAgrees(s, entries, n, max, lru, pages.lru, rest);
    }

    /** One refill: walk, then sort.  It can be repeated for ever. */
    method LruWalk(pages: PageFlags, visits: seq<Visit>, pagesInUse: nat, debug: bool, aggressive: bool, ghost rest: multiset<Ref>)
      requires Valid(pages, rest) && Ready(Abs())
      modifies this`current, this`candidates, this`entries, this`max, slots, pages
      ensures Valid(pages, rest) && Ready(Abs())
      ensures Refilled(old(Abs()), Abs(), WalkPicks(visits, old(pages.lru), Room(old(entries), pagesInUse)), debug, aggressive)
      ensures Offers(Abs(), debug, aggressive)
    {
      hide Bag, Refill, IsSorting, Shape, Agree, Offers;
      Walk(pages, visits, pagesInUse, rest);
      ghost var sorted := SortAndTrim(pages, debug, aggressive, rest);
    }
  }

  function LeftAlone(isServer: bool, urgentOk: bool, hard: bool, dirty: set<Ref>): set<Ref> {
    if !urgentOk && (isServer || !hard) then dirty else {}
  }

  /** A refilled queue with entries offers its fair share of them, from the head of an order in which,
      outside debug mode, the scores of pages ascend. */
  ghost predicate Offers(q: Queue, debug: bool, aggressive: bool) {
    && q.entries <= |q.slots|
    && (q.entries > 0 ==> 1 <= q.candidates <= q.entries && q.current == Some(0))
    && (q.entries == 0 ==> q.candidates == 0 && q.current.None?)
    && (q.entries > 0 ==> FairShare(q.slots, q.entries, aggressive, q.candidates))
    && (forall i, j :: 0 <= i < j < q.entries ==> InOrder(q.slots[i], q.slots[j], debug))
  }

  /** So every candidate page scores no more than any page left out. */
  lemma OffersLowest(q: Queue, aggressive: bool, i: nat, j: nat)
    requires Offers(q, false, aggressive) && i < q.candidates <= j < q.entries
    requires q.slots[i].ref.Some? && q.slots[j].ref.Some?
    ensures q.slots[i].score <= q.slots[j].score
  {
    assert InOrder(q.slots[i], q.slots[j], false);
  }

  lemma RefillOffers(q: Queue, sorted: seq<Entry>, debug: bool, aggressive: bool)
    requires Walked(q) && IsSorting(q.slots[..q.entries], sorted, debug)
    ensures Offers(Refill(q, sorted, aggressive), debug, aggressive)
  {
    hide Bag, Candidates, Sorted, FairShare, InOrder;
    RefillCandidates(q, sorted, debug, aggressive);
  }

  lemma WalkedBounds(q: Queue)
    requires Walked(q)
    ensures q.entries <= q.max <= |q.slots|
  {
  }

  lemma ReadyBounds(q: Queue)
    requires Ready(q)
    ensures Shape(q) && |q.slots| == EVICT_SLOTS && q.entries <= q.max <= |q.slots|
    ensures FreeFrom(q.slots, q.entries)
  {
  }

  /** Setting the entry count is all that is left to do once the slots are written. */
  lemma WalkedAfter(q: Queue, q': Queue, p: seq<Seen>)
    requires Ready(q) && Shape(q') && q.entries + |p| <= |q.slots|
    requires q'.(entries := q.entries) == q.(slots := Laid(q.slots, q.entries, p), max := q'.max)
    requires q'.max == if q.entries + |p| > q.max then q.entries + |p| else q.max
    ensures q'.(entries := q.entries + |p|) == AfterWalk(q, p) && Walked(AfterWalk(q, p))
  {
  }

  lemma AfterWalkBag(q: Queue, p: seq<Seen>)
    requires Ready(q) && q.entries + |p| <= |q.slots|
    ensures Bag(AfterWalk(q, p).slots) == Bag(q.slots) + Bag(SlotsOf(p))
  {
    hide Bag, Shape, SlotsOf;
    var n := q.entries + |p|;
    BagThree(q.slots[..q.entries], SlotsOf(p), q.slots[n..]);
    assert q.slots == q.slots[..q.entries] + q.slots[q.entries..n] + q.slots[n..];
    BagThree(q.slots[..q.entries], q.slots[q.entries..n], q.slots[n..]);
    assert forall k :: 0 <= k < n - q.entries ==> q.slots[q.entries..n][k] == q.slots[q.entries + k];
    BagOfCleared(q.slots[q.entries..n]);
  }

  /** A refill keeps what was queued and adds what was found, all of it unless that is more than is
      tracked between walks. */
  lemma RefilledHolds(q: Queue, q': Queue, p: seq<Seen>, debug: bool, aggressive: bool)
    requires Ready(q) && Refilled(q, q', p, debug, aggressive)
    ensures Bag(q'.slots) <= Bag(q.slots) + Bag(SlotsOf(p))
    ensures q.entries + |p| <= WALK_BASE ==> Bag(q'.slots) == Bag(q.slots) + Bag(SlotsOf(p))
  {
    hide Bag, Sorted, Shape;
    var w := AfterWalk(q, p);
    var sorted :| IsSorting(w.slots[..w.entries], sorted, debug) && q' == Refill(w, sorted, aggressive);
    AfterWalkBag(q, p);
    AfterWalkWalked(q, p);
    RefillKeeps(w, sorted, debug, aggressive);
    assert w.entries == q.entries + |p| by { AfterWalkEntries(q, p); }
  }

  lemma AfterWalkWalked(q: Queue, p: seq<Seen>)
    requires Ready(q) && q.entries + |p| <= |q.slots|
    ensures Walked(AfterWalk(q, p))
  {
    var w := AfterWalk(q, p);
    forall k | 0 <= k < |w.slots|
      ensures w.slots[k].ref.Some? ==> k < w.max && w.slots[k].btree == Some(w.slots[k].ref.value.tree)
      ensures w.slots[k].ref.None? ==> w.slots[k].btree.None?
    {
      if q.entries <= k < w.entries {
        assert w.slots[k] == EntryOf(p[k - q.entries]);
      } else {
        assert w.slots[k] == q.slots[k];
      }
    }
  }

  lemma AfterWalkEntries(q: Queue, p: seq<Seen>)
    requires q.entries + |p| <= |q.slots|
    ensures AfterWalk(q, p).entries == q.entries + |p|
  {
  }

  lemma RefillKeeps(q: Queue, sorted: seq<Entry>, debug: bool, aggressive: bool)
    requires Walked(q) && IsSorting(q.slots[..q.entries], sorted, debug)
    ensures Bag(Refill(q, sorted, aggressive).slots) <= Bag(q.slots)
    ensures q.entries <= WALK_BASE ==> Bag(Refill(q, sorted, aggressive).slots) == Bag(q.slots)
  {
    hide Bag, Sorted;
    RefillBag(q, sorted, debug, aggressive);
    if q.entries <= WALK_BASE {
      var s := sorted + q.slots[q.entries..];
      BagOfCleared(s[Kept(s, q.entries)..Trim(s, q.entries)]);
    }
  }

  // ---------------------------------------------------------------- agreement, region by region

  function Named(e: Entry): set<Ref> {
    if e.ref.Some? then {e.ref.value} else {}
  }

  lemma PushCounts(before: multiset<Ref>, after: multiset<Ref>, rest: multiset<Ref>, r: Ref, displaced: set<Ref>, lru: set<Ref>)
    requires after + multiset(displaced) == before + multiset{r}
    requires r !in lru && displaced <= lru && Agree(before + rest, lru)
    ensures Agree(after + rest, lru + {r} - displaced)
  {
    Flag(before + rest, r, lru);
    assert (after + rest) + multiset(displaced) == (after + multiset(displaced)) + rest;
    assert (before + rest) + multiset{r} == (before + multiset{r}) + rest;
    Unflag(after + rest, displaced, lru + {r});
  }

  lemma LiveNamed(e: Entry)
    ensures Live(e) == multiset(Named(e))
  {
  }

  lemma PushAgrees(slots: seq<Entry>, k: nat, ref: Ref, score: nat, lru: set<Ref>, rest: multiset<Ref>)
    requires k < |slots| && ref !in lru && Agree(Bag(slots) + rest, lru)
    ensures Named(slots[k]) <= lru
    ensures Agree(Bag(slots[k := Entry(Some(ref.tree), Some(ref), score)]) + rest, lru + {ref} - Named(slots[k]))
  {
    hide Bag, Live;
    var e := Entry(Some(ref.tree), Some(ref), score);
    BagUpdate(slots, k, e);
    LiveNamed(slots[k]);
    LiveNamed(e);
    if slots[k].ref.Some? {
      BagMember(slots, slots[k].ref.value);
      Contained(Bag(slots) + rest, slots[k].ref.value, lru);
    }
    PushCounts(Bag(slots), Bag(slots[k := e]), rest, ref, Named(slots[k]), lru);
  }

  lemma Contained(queued: multiset<Ref>, r: Ref, flagged: set<Ref>)
    requires Agree(queued, flagged) && r in queued
    ensures r in flagged && queued[r] == 1
  {
  }

  lemma ClearRefAgrees(slots: seq<Entry>, n: nat, ref: Ref, lru: set<Ref>, rest: multiset<Ref>)
    requires n <= |slots| && WellTagged(slots, n) && Agree(Bag(slots) + rest, lru)
    ensures ref in Bag(slots) <==> exists k :: 0 <= k < n && slots[k].ref == Some(ref)
    ensures ref in Bag(slots) ==> ref in lru
    ensures WellTagged(ClearRef(slots, n, ref), n)
    ensures Agree(Bag(ClearRef(slots, n, ref)) + rest, if ref in Bag(slots) then lru - {ref} else lru)
  {
    BagMember(slots, ref);
    ClearRefBag(slots, n, ref);
    hide Bag;
    if ref in Bag(slots) {
      Contained(Bag(slots) + rest, ref, lru);
      assert Bag(slots) - multiset{ref} + rest + multiset({ref}) == Bag(slots) + rest;
      Unflag(Bag(slots) - multiset{ref} + rest, {ref}, lru);
    } else {
      assert Bag(slots) - multiset{ref} == Bag(slots);
    }
  }

  ghost predicate NamedBelow(slots: seq<Entry>, n: nat, tree: nat, r: Ref)
    requires n <= |slots|
  {
    r.tree == tree && exists j :: 0 <= j < n && slots[j].ref == Some(r)
  }

  lemma FlaggedOnce(slots: seq<Entry>, i: nat, lru: set<Ref>, rest: multiset<Ref>)
    requires i < |slots| && Agree(Bag(slots) + rest, lru)
    ensures slots[i].ref.Some? ==> slots[i].ref.value in lru
    ensures forall j :: 0 <= j < i && slots[i].ref.Some? ==> slots[j].ref != slots[i].ref
  {
    hide Bag;
    if slots[i].ref.Some? {
      var r := slots[i].ref.value;
      BagMember(slots, r);
      assert (Bag(slots) + rest)[r] == multiset(lru)[r];
      forall j | 0 <= j < i ensures slots[j].ref != Some(r) {
        if slots[j].ref == Some(r) {
          BagTwice(slots, j, i, r);
        }
      }
    }
  }

  lemma ClearTreeAgrees(slots: seq<Entry>, n: nat, tree: nat, lru: set<Ref>, lru': set<Ref>, rest: multiset<Ref>)
    requires n <= |slots| && WellTagged(slots, n) && Agree(Bag(slots) + rest, lru)
    requires forall r :: r in lru' <==> r in lru && !NamedBelow(slots, n, tree, r)
    ensures lru' == lru - set r | r in Bag(slots) && r.tree == tree
    ensures WellTagged(ClearTree(slots, n, tree), n)
    ensures Agree(Bag(ClearTree(slots, n, tree)) + rest, lru')
  {
    hide Bag;
    forall r ensures r in lru' <==> r in lru && !(r in Bag(slots) && r.tree == tree) {
      BagMember(slots, r);
    }
    forall r: Ref ensures (Bag(ClearTree(slots, n, tree)) + rest)[r] == multiset(lru')[r] {
      ClearTreeBag(slots, n, tree, r);
      assert (Bag(slots) + rest)[r] == multiset(lru)[r];
    }
  }

  ghost predicate NamedIn(slots: seq<Entry>, lo: nat, hi: nat, r: Ref)
    requires lo <= hi <= |slots|
  {
    exists j :: lo <= j < hi && slots[j].ref == Some(r)
  }

  lemma ClearOneMore(slots: seq<Entry>, lo: nat, at: nat, lru: set<Ref>, lru': set<Ref>, rest: multiset<Ref>)
    requires lo <= at < |slots| && slots[at].ref.Some? && Agree(Bag(slots) + rest, lru)
    requires forall r :: r in lru' <==> r in lru && !NamedIn(slots, lo, at, r)
    ensures ClearRange(slots, lo, at)[at] == slots[at] && slots[at].ref.value in lru'
    ensures ClearRange(slots, lo, at)[at := Clear(slots[at])] == ClearRange(slots, lo, at + 1)
    ensures forall r :: r in lru' - {slots[at].ref.value} <==> r in lru && !NamedIn(slots, lo, at + 1, r)
  {
    hide Bag, Agree, ClearRange, Clear;
    ClearRangeNext(slots, lo, at);
    FlaggedOnce(slots, at, lru, rest);
    forall r ensures NamedIn(slots, lo, at + 1, r) <==> NamedIn(slots, lo, at, r) || r == slots[at].ref.value {
      NamedNext(slots, lo, at, r);
    }
  }

  lemma ClearRangeNext(slots: seq<Entry>, lo: nat, at: nat)
    requires lo <= at < |slots| && slots[at].ref.Some?
    ensures ClearRange(slots, lo, at)[at] == slots[at]
    ensures ClearRange(slots, lo, at)[at := Clear(slots[at])] == ClearRange(slots, lo, at + 1)
  {
  }

  lemma NamedNext(slots: seq<Entry>, lo: nat, at: nat, r: Ref)
    requires lo <= at < |slots|
    ensures NamedIn(slots, lo, at + 1, r) <==> NamedIn(slots, lo, at, r) || slots[at].ref == Some(r)
  {
  }

  lemma TakeAgrees(slots: seq<Entry>, lo: nat, hi: nat, n: nat, lru: set<Ref>, lru': set<Ref>, rest: multiset<Ref>)
    requires lo <= hi <= |slots| && WellTagged(slots, n) && Agree(Bag(slots) + rest, lru)
    requires forall r :: r in lru' <==> r in lru && !NamedIn(slots, lo, hi, r)
    ensures WellTagged(ClearRange(slots, lo, hi), n)
    ensures Agree(Bag(ClearRange(slots, lo, hi)) + rest, lru')
  {
    hide Bag;
    ClearRangeBag(slots, lo, hi);
    var run := slots[lo..hi];
    forall r: Ref ensures (Bag(ClearRange(slots, lo, hi)) + rest)[r] == multiset(lru')[r] {
      BagMember(run, r);
      assert (Bag(slots) + rest)[r] == multiset(lru)[r];
      if NamedIn(slots, lo, hi, r) {
        var j :| lo <= j < hi && slots[j].ref == Some(r);
        assert run[j - lo].ref == Some(r);
      } else {
        assert r !in Bag(run);
      }
    }
  }

  lemma BagOfSorted(q: Queue, sorted: seq<Entry>, debug: bool)
    requires Walked(q) && IsSorting(q.slots[..q.entries], sorted, debug)
    ensures Bag(sorted + q.slots[q.entries..]) == Bag(q.slots)
  {
    hide Bag;
    var lo, hi := q.slots[..q.entries], q.slots[q.entries..];
    assert q.slots == lo + hi;
    BagPermutation(lo, sorted);
    BagAppend(lo, hi);
    BagAppend(sorted, hi);
  }

  lemma ClearOneLess(slots: seq<Entry>, at: nat, hi: nat, lru: set<Ref>, lru': set<Ref>, rest: multiset<Ref>)
    requires at < hi <= |slots| && Agree(Bag(slots) + rest, lru)
    requires forall r :: r in lru' <==> r in lru && !NamedIn(slots, at + 1, hi, r)
    ensures slots[at].ref.Some? ==> slots[at].ref.value in lru'
    ensures forall r :: NamedIn(slots, at, hi, r) <==> NamedIn(slots, at + 1, hi, r) || slots[at].ref == Some(r)
  {
    hide Bag;
    forall j | at < j < hi ensures slots[at].ref.Some? ==> slots[j].ref != slots[at].ref {
      FlaggedOnce(slots, j, lru, rest);
    }
    FlaggedOnce(slots, at, lru, rest);
  }
}
