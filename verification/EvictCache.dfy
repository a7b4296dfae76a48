/** The three queues of the cache together: the per-page clear, the clearing half of exclusive
    access, and the choice of a queue to hand a page out of. */
module EvictCache {
  import opened Options
  import opened LruQueue
  import opened QueueRefill
  import opened EvictQueue

  const QUEUE_MAX: nat := 3
  const URGENT: nat := 2
  const SCORE_CUTOFF: nat := 10

  class EvictCache {
    const queues: seq<EvictQueue>
    const pages: PageFlags
    const trees: Trees
    /** Ordinary queue in use; the other ordinary queue is `1 - cur`. */
    var cur: nat
    var fill: nat

    constructor (trees: Trees)
      ensures Valid() && fresh(pages) && fresh(queues) && this.trees == trees
      ensures forall i :: 0 <= i < 3 ==> fresh(queues[i].slots)
    {
      hide Ready, UrgentReady, Bag;
      var a := new EvictQueue();
      var b := new EvictQueue();
      var u := new EvictQueue();
      queues := [a, b, u];
      pages := new PageFlags();
      this.trees := trees;
      cur, fill := 0, 0;
      new;
      assert Steady(URGENT, u.Abs()) by { NewSteady(u.Abs()); }
      assert Total() == multiset{};
    }

    ghost predicate Separate() {
      && |queues| == 3
      && forall i, j :: 0 <= i < j < 3 ==> queues[i] != queues[j] && queues[i].slots != queues[j].slots
    }

    ghost function BagOf(i: nat): multiset<Ref>
      requires i < |queues|
      reads queues[i], queues[i].slots
    {
      Bag(queues[i].slots[..])
    }

    /** Everything queued, in all three queues. */
    ghost function Total(): multiset<Ref>
      requires |queues| == 3
      reads queues, queues[0].slots, queues[1].slots, queues[2].slots
    {
      BagOf(0) + BagOf(1) + BagOf(2)
    }

    ghost function Rest(i: nat): multiset<Ref>
      requires |queues| == 3 && i < 3
      reads queues, queues[0].slots, queues[1].slots, queues[2].slots
    {
      if i == 0 then BagOf(1) + BagOf(2) else if i == 1 then BagOf(0) + BagOf(2) else BagOf(0) + BagOf(1)
    }

    /** Between lock-protected regions the next walk finds only empty slots to write, the urgent
        queue holds nothing behind its position, and a page carries the LRU flag if and only if
        exactly one slot of one queue names it. */
    ghost predicate Valid()
      reads this, pages, queues, if |queues| == 3 then {queues[0].slots, queues[1].slots, queues[2].slots} else {}
    {
      && Separate()
      && cur < 2 && fill < 2
      && (forall i :: 0 <= i < 3 ==> Steady(i, queues[i].Abs()))
      && Agree(Total(), pages.lru)
    }

    lemma ValidQueue(i: nat)
      requires Valid() && i < 3
      ensures queues[i].Valid(pages, Rest(i)) && Steady(i, queues[i].Abs())
      ensures Total() == BagOf(i) + Rest(i)
    {
      assert Total() == BagOf(i) + Rest(i);
    }

    /** Which ordinary queue is current does not matter to the rest. */
    twostate lemma StillValid()
      requires old(Valid()) && cur < 2 && fill < 2
      requires unchanged(pages, queues, if |queues| == 3 then {queues[0].slots, queues[1].slots, queues[2].slots} else {})
      ensures Valid()
    {
      hide Bag, Agree, Steady;
    }

    lemma ValidBounds()
      requires Valid()
      ensures Separate() && cur < 2 && fill < 2 && Steady(URGENT, queues[URGENT].Abs())
    {
      ValidQueue(URGENT);
    }

    lemma RestIs(i: nat)
      requires |queues| == 3 && i < 3
      ensures Total() == BagOf(i) + Rest(i)
    {
    }

    twostate lemma OthersUnchanged(i: nat)
      requires Separate() && i < 3
      requires forall j :: 0 <= j < 3 && j != i ==> unchanged(queues[j]) && unchanged(queues[j].slots)
      ensures Rest(i) == old(Rest(i))
      ensures forall j :: 0 <= j < 3 && j != i ==> queues[j].Abs() == old(queues[j].Abs())
    {
    }

    lemma Bounds(i: nat)
      requires Valid() && i < 3
      ensures queues[i].max <= queues[i].slots.Length && WellTagged(queues[i].slots[..], queues[i].max)
    {
      assert Steady(i, queues[i].Abs());
    }

    /** One queue's share of the per-page clear. */
    method ClearPageIn(i: nat, ref: Ref) returns (found: bool)
      requires Valid() && i < 3
      modifies pages, queues[i].slots
      ensures Valid()
      ensures found == (ref in old(BagOf(i)))
      ensures pages.lru == if found then old(pages.lru) - {ref} else old(pages.lru)
      ensures queues[i].slots[..] == ClearRef(old(queues[i].slots[..]), queues[i].max, ref)
      ensures !found ==> queues[i].slots[..] == old(queues[i].slots[..])
    {
      hide Bag, Agree, Steady, ClearRef;
      ValidQueue(i);
      Bounds(i);
      ghost var was := queues[i].slots[..];
      SteadyClears(i, queues[i].Abs(), ref, 0);
      found := queues[i].ClearPage(pages, ref, Rest(i));
      OthersUnchanged(i);
      RestIs(i);
      assert !found ==> queues[i].slots[..] == was by { NotThere(was, queues[i].max, ref); }
    }

    /** Make sure a locked page is in no queue.  The program asserts at the end that the flag is
        clear; `Valid` is why it is. */
    method ListClearPage(ref: Ref)
      requires Valid()
      modifies pages, queues[0].slots, queues[1].slots, queues[2].slots
      ensures Valid()
      ensures ref !in pages.lru && pages.lru == old(pages.lru) - {ref}
      ensures Total() == old(Total()) - multiset{ref}
    {
      hide Bag, Steady, ClearRef;
      if ref !in pages.lru {
        NotFlagged(Total(), pages.lru, ref);
        return;
      }
      var found, q := false, 0;
      while q < QUEUE_MAX && !found
        invariant q <= 3 && Valid()
        invariant pages.lru == if found then old(pages.lru) - {ref} else old(pages.lru)
        invariant !found ==> forall i :: 0 <= i < q ==> ref !in BagOf(i)
        decreases 3 - q
      {
        found := ClearPageIn(q, ref);
        q := q + 1;
      }
      assert found by {
        NotFlagged(Total(), pages.lru, ref);
      }
      SameSet(old(Total()), old(pages.lru), Total(), pages.lru, ref);
    }

    method DiscardFileIn(i: nat, tree: nat)
      requires Valid() && i < 3
      modifies pages, queues[i].slots
      ensures Valid()
      ensures queues[i].slots[..] == ClearTree(old(queues[i].slots[..]), queues[i].max, tree)
    {
      hide Bag, Agree, Steady, ClearTree;
      ValidQueue(i);
      SteadyClears(i, queues[i].Abs(), Ref(0, 0), tree);
      queues[i].ClearFile(pages, tree, Rest(i));
      OthersUnchanged(i);
      RestIs(i);
    }

    /** Drop every queued page of one tree, queue by queue. */
    method DiscardFile(tree: nat)
      requires Valid()
      modifies pages, queues[0].slots, queues[1].slots, queues[2].slots
      ensures Valid()
      ensures forall r :: r in Total() <==> r in old(Total()) && r.tree != tree
      ensures forall i :: 0 <= i < 3 ==> queues[i].slots[..] == ClearTree(old(queues[i].slots[..]), queues[i].max, tree)
    {
      hide Bag, Steady, ClearTree, Agree, WellTagged;
      Bounds(0);
      Bounds(1);
      Bounds(2);
      DiscardFileIn(0, tree);
      DiscardFileIn(1, tree);
      DiscardFileIn(2, tree);
      forall r ensures r in Total() <==> r in old(Total()) && r.tree != tree {
        ClearTreeBag(old(queues[0].slots[..]), queues[0].max, tree, r);
        ClearTreeBag(old(queues[1].slots[..]), queues[1].max, tree, r);
        ClearTreeBag(old(queues[2].slots[..]), queues[2].max, tree, r);
      }
    }

    ghost predicate EmptyAt(i: nat, serverCheck: bool)
      requires i < |queues|
      reads this, queues[i], queues[i].slots
    {
      RunOut(queues[i].Abs(), serverCheck)
    }

    method LooksEmpty(i: nat, serverCheck: bool) returns (empty: bool)
      requires i < |queues|
      ensures empty == EmptyAt(i, serverCheck)
    {
      empty := queues[i].IsEmpty(serverCheck);
    }

    method LooksFull(i: nat) returns (full: bool)
      requires i < |queues|
      ensures full == Untouched(queues[i].Abs())
    {
      full := queues[i].IsFull();
    }

    lemma HalfRunsOut(i: nat)
      requires i < |queues|
      ensures EmptyAt(i, false) ==> EmptyAt(i, true)
    {
    }

    /** The server stops handing out to refill the queues. */
    ghost predicate RefillFirst(emptyScore: nat)
      requires |queues| == 3 && cur < 2 && fill < 2
      reads this, queues[cur], queues[cur].slots, queues[fill], queues[fill].slots
    {
      !Untouched(queues[cur].Abs()) && !Untouched(queues[fill].Abs()) && (emptyScore > SCORE_CUTOFF || EmptyAt(fill, false))
    }

    /** Which queue to hand a page out of, if any: the urgent one exactly when the caller may use it
        and it is not empty; otherwise the current one, unless it looks empty to the caller or the
        server has to refill first.  A switch of the ordinary queues takes effect for the next
        caller; it happens when the current one is empty and the other is not. */
    method ChooseQueue(isServer: bool, urgentOk: bool, hasWorkers: bool, emptyScore: nat) returns (q: Option<nat>)
      requires |queues| == 3 && cur < 2 && fill < 2
      requires isServer ==> urgentOk == !hasWorkers
      modifies this`cur
      ensures cur < 2
      ensures q == Some(URGENT) <==> urgentOk && !EmptyAt(URGENT, false)
      ensures q.Some? && q != Some(URGENT) ==> q == Some(old(cur))
      ensures q == Some(old(cur)) <==>
        !(urgentOk && !EmptyAt(URGENT, false)) && !EmptyAt(old(cur), isServer) && !(isServer && old(RefillFirst(emptyScore)))
      ensures cur != old(cur) <==>
        && !(urgentOk && !EmptyAt(URGENT, false)) && !(isServer && old(RefillFirst(emptyScore)))
        && EmptyAt(old(cur), isServer && !hasWorkers) && !EmptyAt(1 - old(cur), isServer)
    {
      hide RunOut, Untouched;
      var c, o, u := cur, 1 - cur, URGENT;
      HalfRunsOut(c);
      HalfRunsOut(o);
      var cEmpty := LooksEmpty(c, isServer);
      var oEmpty := LooksEmpty(o, isServer);
      var uEmpty := LooksEmpty(u, false);
      if cEmpty && oEmpty && (!urgentOk || uEmpty) {
        return None;
      }
      var fEmpty := LooksEmpty(fill, false);
      var cFull := LooksFull(c);
      var fFull := LooksFull(fill);
      if isServer && (!urgentOk || uEmpty) && !cFull && !fFull && (emptyScore > SCORE_CUTOFF || fEmpty) {
        return None;
      }
      var serverOnly := isServer && !hasWorkers;
      cEmpty := LooksEmpty(c, serverOnly);
      oEmpty := LooksEmpty(o, serverOnly);
      if (urgentOk || (cEmpty && oEmpty)) && !uEmpty {
        return Some(URGENT);
      }
      q := Some(cur);
      if cEmpty && !oEmpty {
        cur := 1 - cur;
      }
      var none := LooksEmpty(c, isServer);
      if none {
        q := None;
      }
    }

    /** The page a caller is handed: from the urgent queue if it may use it and it is not empty, and
        otherwise from the current one. */
    ghost function ToHand(isServer: bool, isApp: bool, hasWorkers: bool, dirtyHard: bool, updatesHard: bool,
                          emptyScore: nat, dirty: set<Ref>): Option<Ref>
      requires |queues| == 3 && cur < 2 && fill < 2
      reads this, queues, trees, queues[0].slots, queues[1].slots, queues[2].slots
    {
      var urgentOk := UrgentOk(isServer, isApp, hasWorkers, dirtyHard);
      var decline := LeftAlone(isServer, urgentOk, dirtyHard || updatesHard, dirty);
      if urgentOk && !EmptyAt(URGENT, false) then HandedOf(queues[URGENT].Abs(), false, decline, trees.mem)
      else if isServer && RefillFirst(emptyScore) then None
      else HandedOf(queues[cur].Abs(), isServer, decline, trees.mem)
    }

    /** Choose a queue and hand a page out of it.  Nobody else changes the queues here: what other
        threads may do between the choice and the lock is `EvictProtocol`'s concern. */
    method GetRef(isServer: bool, isApp: bool, hasWorkers: bool, dirtyHard: bool, updatesHard: bool, emptyScore: nat,
                  dirty: set<Ref>) returns (handed: Option<Ref>)
      requires Valid() && (isServer ==> !isApp)
      modifies this`cur, queues, pages, trees, queues[0].slots, queues[1].slots, queues[2].slots
      ensures Valid()
      ensures handed == old(ToHand(isServer, isApp, hasWorkers, dirtyHard, updatesHard, emptyScore, dirty))
      ensures handed.Some? && handed.value in dirty ==> (!isApp && !isServer) || !hasWorkers || (isApp && (dirtyHard || updatesHard))
      ensures old(ServedRight(isServer, isApp, hasWorkers, dirtyHard, updatesHard, emptyScore, dirty, handed))
      ensures handed.Some? ==> handed.value in old(trees.mem) && handed.value in old(Total()) && handed.value !in Total()
      ensures UrgentOk(isServer, isApp, hasWorkers, dirtyHard) && (exists r :: r in old(BagOf(URGENT)) && r in old(trees.mem))
        ==> handed.Some? && handed.value in old(BagOf(URGENT))
    {
      hide Bag, Agree, EvictCache.ToHand, EvictCache.Valid, EvictCache.Total, HandedOf, LeftAlone, EvictCache.ServedRight;
      ValidBounds();
      HandsRight(isServer, isApp, hasWorkers, dirtyHard, updatesHard, emptyScore, dirty);
      var urgentOk := UrgentOk(isServer, isApp, hasWorkers, dirtyHard);
      if urgentOk && exists r :: r in BagOf(URGENT) && r in trees.mem {
        UrgentFirst(isServer, isApp, hasWorkers, dirtyHard, updatesHard, emptyScore, dirty);
      }
      var q := Choose(isServer, isApp, hasWorkers, dirtyHard, updatesHard, emptyScore, dirty);
      handed := None;
      if q.Some? {
        handed := TakeFrom(q.value, isServer, urgentOk, dirtyHard || updatesHard, dirty);
      }
    }

    /** The queue chosen is one that hands out the page to be handed out. */
    method Choose(isServer: bool, isApp: bool, hasWorkers: bool, dirtyHard: bool, updatesHard: bool, emptyScore: nat,
                  ghost dirty: set<Ref>) returns (q: Option<nat>)
      requires Valid() && (isServer ==> !isApp)
      modifies this`cur
      ensures Valid() && Total() == old(Total()) && (q.Some? ==> q.value < 3)
      ensures old(ToHand(isServer, isApp, hasWorkers, dirtyHard, updatesHard, emptyScore, dirty)) ==
        if q.None? then None
        else HandedOf(queues[q.value].Abs(), isServer && q.value != URGENT,
                      LeftAlone(isServer, UrgentOk(isServer, isApp, hasWorkers, dirtyHard), dirtyHard || updatesHard, dirty), trees.mem)
    {
      hide Bag, Agree, Shape, Steady, RunOut, Untouched, HandedOf, LeftAlone, EvictCache.RefillFirst, EvictCache.Valid;
      ValidBounds();
      var urgentOk := UrgentOk(isServer, isApp, hasWorkers, dirtyHard);
      if EmptyAt(cur, isServer) {
        EmptyHandsNothing(queues[cur].Abs(), isServer, LeftAlone(isServer, urgentOk, dirtyHard || updatesHard, dirty), trees.mem);
      }
      q := ChooseQueue(isServer, urgentOk, hasWorkers, emptyScore);
      StillValid();
    }

    /** Pages queued as urgent are for the workers, for everybody where there are none, and for
        application threads held up by dirty data; who else is held up, by updates, may be given dirty
        pages too, but no urgent ones.  The rest leave dirty pages alone and stop in front of one.  The
        server, while it need not use the urgent queue, refills before it hands out when neither queue
        is untouched and the queues have looked empty lately or the one to fill is drained. */
    ghost predicate ServedRight(isServer: bool, isApp: bool, hasWorkers: bool, dirtyHard: bool, updatesHard: bool,
                                emptyScore: nat, dirty: set<Ref>, handed: Option<Ref>)
      requires |queues| == 3 && cur < 2 && fill < 2
      reads this, queues, trees, queues[0].slots, queues[1].slots, queues[2].slots
    {
      var c, f, u := queues[cur].Abs(), queues[fill].Abs(), queues[URGENT].Abs();
      var urgent := (!isApp && !isServer) || !hasWorkers || (isApp && dirtyHard);
      var skip := if urgent || (isApp && updatesHard) then {} else dirty;
      if urgent && !RunOut(u, false) then Serves(u, false, {}, trees.mem, handed)
      else if isServer && !Untouched(c) && !Untouched(f) && (emptyScore > SCORE_CUTOFF || RunOut(f, false)) then handed.None?
      else Serves(c, isServer, skip, trees.mem, handed)
    }

    lemma HandsRight(isServer: bool, isApp: bool, hasWorkers: bool, dirtyHard: bool, updatesHard: bool, emptyScore: nat, dirty: set<Ref>)
      requires Valid() && (isServer ==> !isApp)
      ensures var h := ToHand(isServer, isApp, hasWorkers, dirtyHard, updatesHard, emptyScore, dirty);
        && ServedRight(isServer, isApp, hasWorkers, dirtyHard, updatesHard, emptyScore, dirty, h)
        && (h.Some? && h.value in dirty ==> (!isApp && !isServer) || !hasWorkers || (isApp && (dirtyHard || updatesHard)))
    {
      hide Bag, Agree, Serves, HandedOf;
      ValidQueue(cur);
      ValidQueue(URGENT);
      var decline := LeftAlone(isServer, UrgentOk(isServer, isApp, hasWorkers, dirtyHard), dirtyHard || updatesHard, dirty);
      HandedServes(queues[cur].Abs(), isServer, decline, trees.mem);
      HandedServes(queues[URGENT].Abs(), false, decline, trees.mem);
    }

    /** A caller that may use the urgent queue is handed a page of it whenever one can be locked. */
    lemma UrgentFirst(isServer: bool, isApp: bool, hasWorkers: bool, dirtyHard: bool, updatesHard: bool, emptyScore: nat, dirty: set<Ref>)
      requires Valid() && UrgentOk(isServer, isApp, hasWorkers, dirtyHard)
      requires exists r :: r in BagOf(URGENT) && r in trees.mem
      ensures var h := ToHand(isServer, isApp, hasWorkers, dirtyHard, updatesHard, emptyScore, dirty);
        h.Some? && h.value in BagOf(URGENT)
    {
      hide Bag, Agree, Take, UrgentReady, Steady;
      ValidBounds();
      var q := queues[URGENT].Abs();
      UrgentDrained(q);
      UrgentHands(q, trees.mem);
    }

    /** Hand a page out of queue `i`, holding its lock. */
    method TakeFrom(i: nat, isServer: bool, urgentOk: bool, hard: bool, dirty: set<Ref>) returns (handed: Option<Ref>)
      requires Valid() && i < 3
      modifies queues[i], pages, trees, queues[i].slots
      ensures Valid()
      ensures forall j :: 0 <= j < 3 && j != i ==> BagOf(j) == old(BagOf(j))
      ensures handed == HandedOf(old(queues[i].Abs()), isServer && i != URGENT, LeftAlone(isServer, urgentOk, hard, dirty), old(trees.mem))
      ensures handed.Some? ==> handed.value in old(trees.mem) && handed.value in old(Total()) && handed.value !in Total()
      ensures BagOf(i) <= old(BagOf(i))
    {
      hide Bag, Agree, Steady, Take, WellTagged;
      ValidQueue(i);
      ghost var rest, q, flags, mem := Rest(i), queues[i].Abs(), pages.lru, trees.mem;
      ghost var limit, decline := ServerLimit(q, isServer && i != URGENT), LeftAlone(isServer, urgentOk, hard, dirty);
      handed := queues[i].GetRef(pages, trees, isServer, i == URGENT, urgentOk, hard, dirty, rest);
      OthersUnchanged(i);
      RestIs(i);
      SteadyTakes(i, q, limit, decline, mem);
      TakenFacts(q, limit, decline, mem, rest, flags);
    }

    /** Queue a page for eviction as soon as possible; its tree's disabled count is passed in. */
    method PageEvictUrgent(ref: Ref, score: nat, evictDisabled: nat) returns (queued: bool)
      requires Valid()
      modifies pages, queues[URGENT], queues[URGENT].slots
      ensures Valid()
      ensures queued ==> ref !in old(pages.lru) && evictDisabled == 0 && BagOf(URGENT) == old(BagOf(URGENT)) + multiset{ref}
      ensures !queued ==> Total() == old(Total()) && pages.lru == old(pages.lru)
      ensures queued <==>
        ref !in old(pages.lru) && evictDisabled == 0
        && (old(queues[URGENT].candidates) < EVICT_SLOTS || old(RunOut(queues[URGENT].Abs(), false)))
    {
      hide Bag, Agree, Shape;
      ValidQueue(URGENT);
      queued := queues[URGENT].PushUrgent(pages, ref, score, evictDisabled, Rest(URGENT));
      OthersUnchanged(URGENT);
      RestIs(URGENT);
    }

    /** The ordinary queue a turn of the server refills: the one that is due, or the other one when
        that is full and the other is not. */
    ghost function Due(): nat
      requires |queues| == 3 && fill < 2
      reads this, queues, queues[0].slots, queues[1].slots
    {
      if Untouched(queues[fill].Abs()) && !Untouched(queues[1 - fill].Abs()) then 1 - fill else fill
    }

    /** The queue is still full and has not looked empty lately, so the turn is skipped. */
    ghost predicate Skips(emptyScore: nat)
      requires |queues| == 3 && fill < 2
      reads this, queues, queues[0].slots, queues[1].slots
    {
      Untouched(queues[Due()].Abs()) && emptyScore < SCORE_CUTOFF
    }

    /** One turn of the server: refill whichever ordinary queue is due, sorted and trimmed from what it
        had and what a walk with room for it finds; the queues take turns. */
    method LruWalk(visits: seq<Visit>, pagesInUse: nat, emptyScore: nat, debug: bool, aggressive: bool)
      requires Valid()
      modifies this`fill, pages, queues, queues[0].slots, queues[1].slots
      ensures Valid() && fill == 1 - old(fill)
      ensures old(Skips(emptyScore)) ==> pages.lru == old(pages.lru) && forall i :: 0 <= i < 3 ==> queues[i].Abs() == old(queues[i].Abs())
      ensures !old(Skips(emptyScore)) ==>
        && Refills(old(Due()), old(queues[Due()].Abs()), visits, old(pages.lru), pagesInUse, debug, aggressive)
        && forall i :: 0 <= i < 3 && i != old(Due()) ==> queues[i].Abs() == old(queues[i].Abs())
    {
      hide Bag, Agree, Steady, EvictCache.Refills;
      var q := fill;
      fill := 1 - q;
      var full := LooksFull(q);
      var otherFull := LooksFull(1 - q);
      if full && !otherFull {
        q := 1 - q;
        full := false;
      }
      if full && emptyScore < SCORE_CUTOFF {
        return;
      }
      RefillOne(q, visits, pagesInUse, debug, aggressive);
    }

    ghost predicate Refills(i: nat, was: Queue, visits: seq<Visit>, lru: set<Ref>, pagesInUse: nat, debug: bool, aggressive: bool)
      requires i < |queues|
      reads queues[i], queues[i].slots
    {
      && Refilled(was, queues[i].Abs(), WalkPicks(visits, lru, Room(was.entries, pagesInUse)), debug, aggressive)
      && Offers(queues[i].Abs(), debug, aggressive)
    }

    method RefillOne(i: nat, visits: seq<Visit>, pagesInUse: nat, debug: bool, aggressive: bool)
      requires Valid() && i < 2
      modifies pages, queues[i], queues[i].slots
      ensures Valid() && Refills(i, old(queues[i].Abs()), visits, old(pages.lru), pagesInUse, debug, aggressive)
      ensures forall j :: 0 <= j < 3 && j != i ==> queues[j].Abs() == old(queues[j].Abs())
    {
      hide Bag, Agree, Ready, UrgentReady, Refilled, Offers, WalkPicks, Room;
      ValidQueue(i);
      queues[i].LruWalk(pages, visits, pagesInUse, debug, aggressive, Rest(i));
      OthersUnchanged(i);
      RestIs(i);
    }
  }

  /** Nothing is left to hand out, of all candidates or of the first half of them. */
  ghost predicate RunOut(q: Queue, half: bool) {
    q.current.Some? ==> q.current.value >= if half && q.candidates > 1 then q.candidates / 2 else q.candidates
  }

  /** Nothing has been handed out yet. */
  ghost predicate Untouched(q: Queue) {
    q.current == Some(0) && q.candidates > 0
  }

  /** The caller is handed the first page from the position on that can be locked, among all candidates
      or the first half of them, unless a page to leave alone comes before it. */
  ghost predicate Serves(q: Queue, half: bool, skip: set<Ref>, mem: set<Ref>, handed: Option<Ref>) {
    var end := if half && q.candidates > 1 then q.candidates / 2 else q.candidates;
    if handed.Some? then exists k: nat :: FirstOf(q, k, end, mem + skip) && q.slots[k].ref == handed && handed.value in mem - skip
    else q.current.None? || forall k: nat :: FirstOf(q, k, end, mem + skip) ==> q.slots[k].ref.value in skip
  }

  /** Slot `k` is the first one between the position and `end` that names a page of `refs`. */
  ghost predicate FirstOf(q: Queue, k: nat, end: nat, refs: set<Ref>) {
    && q.current.Some? && q.current.value <= k < end && k < |q.slots|
    && q.slots[k].ref.Some? && q.slots[k].ref.value in refs
    && forall j :: q.current.value <= j < k && q.slots[j].ref.Some? ==> q.slots[j].ref.value !in refs
  }

  lemma HandedServes(q: Queue, half: bool, decline: set<Ref>, mem: set<Ref>)
    requires Shape(q)
    ensures Serves(q, half, decline, mem, HandedOf(q, half, decline, mem))
    ensures var h := HandedOf(q, half, decline, mem); h.Some? ==> h.value in mem - decline
  {
    hide WellTagged;
    if q.current.Some? {
      var s := ScanFrom(q.slots, q.current.value, ServerLimit(q, half), decline, mem);
      var end := if half && q.candidates > 1 then q.candidates / 2 else q.candidates;
      if !s.Exhausted? {
        assert FirstOf(q, s.at, end, mem + decline);
      }
    }
  }

  /** The page a take of this queue hands out. */
  function HandedOf(q: Queue, half: bool, decline: set<Ref>, mem: set<Ref>): Option<Ref> {
    if ServerLimit(q, half) <= |q.slots| then Take(q, ServerLimit(q, half), decline, mem).handed else None
  }

  lemma EmptyHandsNothing(q: Queue, half: bool, decline: set<Ref>, mem: set<Ref>)
    requires RunOut(q, half)
    ensures HandedOf(q, half, decline, mem).None?
  {
  }

  lemma UrgentHands(q: Queue, mem: set<Ref>)
    requires Steady(URGENT, q) && exists r :: r in Bag(q.slots) && r in mem
    ensures var h := HandedOf(q, false, {}, mem); h.Some? && h.value in Bag(q.slots)
  {
    hide Bag;
    UrgentNotMissed(q, mem);
    TakeBag(q, q.candidates, {}, mem);
  }

  ghost predicate Steady(i: nat, q: Queue) {
    if i == URGENT then UrgentReady(q) && |q.slots| == EVICT_SLOTS else Ready(q)
  }

  lemma NewSteady(q: Queue)
    requires Ready(q) && UrgentReady(q)
    ensures Steady(URGENT, q)
  {
  }

  lemma SteadyClears(i: nat, q: Queue, r: Ref, tree: nat)
    requires Steady(i, q)
    ensures Steady(i, q.(slots := ClearRef(q.slots, q.max, r)))
    ensures Steady(i, q.(slots := ClearTree(q.slots, q.max, tree)))
  {
  }

  lemma SteadyTakes(i: nat, q: Queue, limit: nat, decline: set<Ref>, mem: set<Ref>)
    requires Steady(i, q) && limit <= q.candidates && (i == URGENT ==> limit == q.candidates)
    ensures Steady(i, Take(q, limit, decline, mem).queue)
  {
    hide Bag;
    TakeBag(q, limit, decline, mem);
    if i == URGENT {
      UrgentTakes(q, decline, mem);
    }
  }

  lemma TakenFacts(q: Queue, limit: nat, decline: set<Ref>, mem: set<Ref>, rest: multiset<Ref>, flags: set<Ref>)
    requires Shape(q) && limit <= q.candidates && Agree(Bag(q.slots) + rest, flags)
    ensures var t := Take(q, limit, decline, mem);
      && Shape(t.queue) && Bag(t.queue.slots) <= Bag(q.slots)
      && (t.handed.Some? ==> t.handed.value in mem && t.handed.value in Bag(q.slots)
                             && t.handed.value !in Bag(t.queue.slots) + rest)
  {
    hide Bag, Dropped, Agree;
    TakeBag(q, limit, decline, mem);
    var t := Take(q, limit, decline, mem);
    if t.handed.Some? {
      OnceOnly(q.slots, rest, flags, t.handed.value, Bag(t.queue.slots));
    }
  }

  lemma NotThere(slots: seq<Entry>, n: nat, ref: Ref)
    requires n <= |slots|
    ensures ref !in Bag(slots) ==> ClearRef(slots, n, ref) == slots
  {
    hide Bag;
    BagMember(slots, ref);
  }

  lemma NotFlagged(queued: multiset<Ref>, flags: set<Ref>, ref: Ref)
    requires Agree(queued, flags)
    ensures ref in queued <==> ref in flags
    ensures ref !in flags ==> queued == queued - multiset{ref} && flags == flags - {ref}
  {
    assert queued[ref] == multiset(flags)[ref];
  }

  function UrgentOk(isServer: bool, isApp: bool, hasWorkers: bool, dirtyHard: bool): bool {
    (!isApp && !isServer) || !hasWorkers || (isApp && dirtyHard)
  }

  lemma UrgentDrained(q: Queue)
    requires Steady(URGENT, q)
    ensures RunOut(q, false) ==> Bag(q.slots) == multiset{}
  {
    if RunOut(q, false) {
      BagOfCleared(q.slots);
    }
  }

  lemma SameSet(before: multiset<Ref>, flags: set<Ref>, after: multiset<Ref>, flags': set<Ref>, ref: Ref)
    requires Agree(before, flags) && Agree(after, flags') && flags' == flags - {ref}
    ensures after == before - multiset{ref}
  {
  }

  lemma OnceOnly(slots: seq<Entry>, rest: multiset<Ref>, flags: set<Ref>, r: Ref, left: multiset<Ref>)
    requires Agree(Bag(slots) + rest, flags) && r in Bag(slots)
    requires left + multiset{r} <= Bag(slots)
    ensures r !in left + rest
  {
    hide Bag;
    assert (Bag(slots) + rest)[r] == multiset(flags)[r];
    assert (left + multiset{r})[r] <= Bag(slots)[r];
  }
}
