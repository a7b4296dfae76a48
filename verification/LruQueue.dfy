/** Candidate queues of the LRU eviction server, as values.

    The functions below are what each lock-protected region of evict_lru.c does to one
    queue.  `EvictQueue.dfy` shows that the loops of the program compute them, and
    `EvictProtocol.dfy` interleaves them. */
module LruQueue {
  import opened Options

  /** A page reference; `tree` is the btree it belongs to. */
  datatype Ref = Ref(tree: nat, id: nat)

  /** One slot.  A cleared slot has neither tree nor reference; its score is stale. */
  datatype Entry = Entry(btree: Option<nat>, ref: Option<Ref>, score: nat)

  /** `current == None` is the null `evict_current`. */
  datatype Queue = Queue(slots: seq<Entry>, current: Option<nat>, candidates: nat, entries: nat, max: nat)

  const WALK_BASE: nat := 300
  const WALK_INCR: nat := 100
  const EVICT_SLOTS: nat := WALK_BASE + WALK_INCR
  const READGEN_START_VALUE: nat := 100
  const UINT64_MAX: nat := 0xFFFF_FFFF_FFFF_FFFF

  predicate EvictSoon(score: nat) {
    score != 0 && score < READGEN_START_VALUE
  }

  // ---------------------------------------------------------------- live references

  function Live(e: Entry): multiset<Ref> {
    if e.ref.Some? then multiset{e.ref.value} else multiset{}
  }

  /** The references named by a run of slots, with multiplicity. */
  function Bag(slots: seq<Entry>): multiset<Ref> {
    if slots == [] then multiset{} else Bag(slots[..|slots| - 1]) + Live(slots[|slots| - 1])
  }

  lemma {:induction false} BagAppend(a: seq<Entry>, b: seq<Entry>)
    ensures Bag(a + b) == Bag(a) + Bag(b)
  {
    if b == [] {
      assert a + b == a;
    } else {
      var b' := b[..|b| - 1];
      assert (a + b)[..|a + b| - 1] == a + b';
      BagAppend(a, b');
    }
  }

  lemma BagThree(a: seq<Entry>, b: seq<Entry>, c: seq<Entry>)
    ensures Bag(a + b + c) == Bag(a) + Bag(b) + Bag(c)
  {
    hide Bag;
    BagAppend(a, b);
    BagAppend(a + b, c);
  }

  lemma BagOne(e: Entry)
    ensures Bag([e]) == Live(e)
  {
    assert [e][..0] == [];
  }

  lemma BagUpdate(slots: seq<Entry>, k: nat, e: Entry)
    requires k < |slots|
    ensures Bag(slots[k := e]) + Live(slots[k]) == Bag(slots) + Live(e)
  {
    var lo, hi := slots[..k], slots[k + 1..];
    assert slots == lo + [slots[k]] + hi;
    assert slots[k := e] == lo + [e] + hi;
    BagThree(lo, [slots[k]], hi);
    BagThree(lo, [e], hi);
    BagOne(slots[k]);
    BagOne(e);
    hide Bag;
  }

  lemma {:induction false} BagHas(slots: seq<Entry>, k: nat, r: Ref)
    requires k < |slots| && slots[k].ref == Some(r)
    ensures r in Bag(slots)
  {
    if k < |slots| - 1 {
      BagHas(slots[..|slots| - 1], k, r);
    }
  }

  lemma {:induction false} BagNames(slots: seq<Entry>, r: Ref) returns (k: nat)
    requires r in Bag(slots)
    ensures k < |slots| && slots[k].ref == Some(r)
  {
    var last := |slots| - 1;
    if r in Live(slots[last]) {
      k := last;
    } else {
      k := BagNames(slots[..last], r);
    }
  }

  lemma BagMember(slots: seq<Entry>, r: Ref)
    ensures r in Bag(slots) <==> exists k :: 0 <= k < |slots| && slots[k].ref == Some(r)
  {
    hide Bag;
    if r in Bag(slots) {
      var k := BagNames(slots, r);
    }
    if k :| 0 <= k < |slots| && slots[k].ref == Some(r) {
      BagHas(slots, k, r);
    }
  }

  /** Two slots naming the same reference count twice, so multiplicity one means one slot. */
  lemma BagTwice(slots: seq<Entry>, i: nat, j: nat, r: Ref)
    requires i < j < |slots| && slots[i].ref == slots[j].ref == Some(r)
    ensures Bag(slots)[r] >= 2
  {
    var lo, hi := slots[..j], slots[j..];
    assert slots == lo + hi;
    BagAppend(lo, hi);
    assert lo[i].ref == Some(r) && hi[0].ref == Some(r);
    BagMember(lo, r);
    BagMember(hi, r);
  }

  lemma WithoutOne(lo: seq<Entry>, e: Entry, hi: seq<Entry>)
    ensures multiset(lo + [e] + hi) == multiset(lo + hi) + multiset{e}
  {
    assert multiset(lo + [e] + hi) == multiset(lo + [e]) + multiset(hi);
    assert multiset(lo + hi) == multiset(lo) + multiset(hi);
  }

  lemma Cancel<T>(x: multiset<T>, y: multiset<T>, z: multiset<T>)
    requires x + z == y + z
    ensures x == y
  {
    assert x == (x + z) - z && y == (y + z) - z;
  }

  /** A rearrangement of slots names the same references. */
  lemma {:induction false} BagPermutation(a: seq<Entry>, b: seq<Entry>)
    requires multiset(a) == multiset(b)
    ensures Bag(a) == Bag(b)
    decreases |a|
  {
    hide Bag;
    if a == [] {
      assert |multiset(b)| == 0;
    } else {
      var a', e := a[..|a| - 1], a[|a| - 1];
      assert a == a' + [e];
      assert e in multiset(b);
      var k :| 0 <= k < |b| && b[k] == e;
      var lo, hi := b[..k], b[k + 1..];
      assert b == lo + [e] + hi;
      WithoutOne(a', e, []);
      WithoutOne(lo, e, hi);
      assert a' + [e] + [] == a && a' + [] == a';
      Cancel(multiset(a'), multiset(lo + hi), multiset{e});
      BagPermutation(a', lo + hi);
      BagAppend(lo, hi);
      BagAppend(a', [e]);
      BagThree(lo, [e], hi);
    }
  }

  // ---------------------------------------------------------------- clearing slots

  function Clear(e: Entry): Entry {
    Entry(None, None, e.score)
  }

  /** Clear the live slots of `[lo, hi)`. */
  function ClearRange(slots: seq<Entry>, lo: nat, hi: nat): (r: seq<Entry>)
    ensures |r| == |slots|
  {
    seq(|slots|, k requires 0 <= k < |slots| =>
      if lo <= k < hi && slots[k].ref.Some? then Clear(slots[k]) else slots[k])
  }

  lemma {:induction false} BagOfCleared(slots: seq<Entry>)
    requires forall k :: 0 <= k < |slots| ==> slots[k].ref.None?
    ensures Bag(slots) == multiset{}
  {
    if slots != [] {
      BagOfCleared(slots[..|slots| - 1]);
    }
  }

  lemma ClearRangeSplit(slots: seq<Entry>, lo: nat, hi: nat)
    requires lo <= hi <= |slots|
    ensures ClearRange(slots, lo, hi) == slots[..lo] + ClearRange(slots, lo, hi)[lo..hi] + slots[hi..]
    ensures Bag(ClearRange(slots, lo, hi)[lo..hi]) == multiset{}
  {
    BagOfCleared(ClearRange(slots, lo, hi)[lo..hi]);
  }

  lemma ClearRangeBag(slots: seq<Entry>, lo: nat, hi: nat)
    requires lo <= hi <= |slots|
    ensures Bag(slots) == Bag(ClearRange(slots, lo, hi)) + Bag(slots[lo..hi])
  {
    hide *;
    ClearRangeSplit(slots, lo, hi);
    assert slots == slots[..lo] + slots[lo..hi] + slots[hi..];
    BagThree(slots[..lo], slots[lo..hi], slots[hi..]);
    BagThree(slots[..lo], ClearRange(slots, lo, hi)[lo..hi], slots[hi..]);
  }

  /** The slot loop of exclusive access: drop every entry below `n` that names `tree`. */
  function ClearTree(slots: seq<Entry>, n: nat, tree: nat): (r: seq<Entry>)
    ensures |r| == |slots|
  {
    seq(|slots|, k requires 0 <= k < |slots| =>
      if k < n && slots[k].btree == Some(tree) then Clear(slots[k]) else slots[k])
  }

  /** Entries and their trees agree, and no slot is live from `n` up. */
  ghost predicate WellTagged(slots: seq<Entry>, n: nat) {
    forall k :: 0 <= k < |slots| ==>
      && (slots[k].ref.Some? ==> k < n && slots[k].btree == Some(slots[k].ref.value.tree))
      && (slots[k].ref.None? ==> slots[k].btree.None?)
  }

  /** After the loop every reference of the tree is gone and no other one is. */
  lemma {:induction false} ClearTreeBag(slots: seq<Entry>, n: nat, tree: nat, r: Ref)
    requires WellTagged(slots, n)
    ensures Bag(ClearTree(slots, n, tree))[r] == if r.tree == tree then 0 else Bag(slots)[r]
  {
    if slots != [] {
      var last := |slots| - 1;
      var front, cleared := slots[..last], ClearTree(slots, n, tree);
      ClearTreeBag(front, n, tree, r);
      assert cleared[..last] == ClearTree(front, n, tree);
      assert Bag(cleared)[r] == Bag(cleared[..last])[r] + Live(cleared[last])[r];
      assert Bag(slots)[r] == Bag(front)[r] + Live(slots[last])[r];
      assert Live(cleared[last])[r] == if r.tree == tree then 0 else Live(slots[last])[r];
    }
  }

  /** The references of `tree` among a run of slots, with multiplicity. */
  function TreeBag(slots: seq<Entry>, tree: nat): multiset<Ref> {
    if slots == [] then multiset{}
    else
      var e := slots[|slots| - 1];
      TreeBag(slots[..|slots| - 1], tree) + (if e.ref.Some? && e.ref.value.tree == tree then Live(e) else multiset{})
  }

  lemma {:induction false} TreeBagCount(slots: seq<Entry>, tree: nat, r: Ref)
    ensures TreeBag(slots, tree)[r] == if r.tree == tree then Bag(slots)[r] else 0
  {
    if slots != [] {
      TreeBagCount(slots[..|slots| - 1], tree, r);
    }
  }

  /** The loop splits what was queued into the references of the tree and all others. */
  lemma ClearTreeSplits(slots: seq<Entry>, n: nat, tree: nat)
    requires WellTagged(slots, n)
    ensures Bag(slots) == Bag(ClearTree(slots, n, tree)) + TreeBag(slots, tree)
  {
    hide Bag, TreeBag, ClearTree, WellTagged;
    forall r: Ref ensures Bag(slots)[r] == (Bag(ClearTree(slots, n, tree)) + TreeBag(slots, tree))[r] {
      ClearTreeBag(slots, n, tree, r);
      TreeBagCount(slots, tree, r);
    }
  }

  /** First slot below `n` holding `r`, or `n`. */
  function Find(slots: seq<Entry>, k: nat, n: nat, r: Ref): (i: nat)
    requires k <= n <= |slots|
    ensures k <= i <= n
    ensures forall j :: k <= j < i ==> slots[j].ref != Some(r)
    ensures i < n ==> slots[i].ref == Some(r)
    decreases n - k
  {
    if k == n || slots[k].ref == Some(r) then k else Find(slots, k + 1, n, r)
  }

  /** The slot loop of the per-page clear: only the first match is cleared. */
  function ClearRef(slots: seq<Entry>, n: nat, r: Ref): (s: seq<Entry>)
    requires n <= |slots|
    ensures |s| == |slots|
  {
    var i := Find(slots, 0, n, r);
    if i < n then slots[i := Clear(slots[i])] else slots
  }

  lemma ClearRefBag(slots: seq<Entry>, n: nat, r: Ref)
    requires n <= |slots| && WellTagged(slots, n)
    ensures Bag(ClearRef(slots, n, r)) == Bag(slots) - multiset{r}
    ensures WellTagged(ClearRef(slots, n, r), n)
  {
    hide Bag, WellTagged, Find;
    var i := Find(slots, 0, n, r);
    if i < n {
      ClearOne(slots, n, i, r);
    } else if r in Bag(slots) {
      var k := BagNames(slots, r);
      TaggedBelow(slots, n, k);
      assert false;
    }
  }

  lemma TaggedBelow(slots: seq<Entry>, n: nat, k: nat)
    requires WellTagged(slots, n) && k < |slots| && slots[k].ref.Some?
    ensures k < n
  {
  }

  lemma ClearOne(slots: seq<Entry>, n: nat, i: nat, r: Ref)
    requires i < |slots| && slots[i].ref == Some(r) && WellTagged(slots, n)
    ensures Bag(slots[i := Clear(slots[i])]) == Bag(slots) - multiset{r}
    ensures WellTagged(slots[i := Clear(slots[i])], n)
  {
    hide Bag;
    var cleared := slots[i := Clear(slots[i])];
    BagUpdate(slots, i, Clear(slots[i]));
    assert Bag(cleared) + multiset{r} == Bag(slots);
    assert Bag(cleared) == (Bag(cleared) + multiset{r}) - multiset{r};
  }

  // ---------------------------------------------------------------- pushing

  /** Fill slot `k` with `r`, whose LRU flag was won by this thread. */
  function Push(q: Queue, k: nat, r: Ref, score: nat): Queue
    requires k < |q.slots|
  {
    q.(slots := q.slots[k := Entry(Some(r.tree), Some(r), score)],
       max := if k >= q.max then k + 1 else q.max)
  }

  predicate Empty(q: Queue) {
    q.current.None? || q.current.value >= q.candidates
  }

  /** The urgent append, once the page is known to be unflagged and its tree enabled. */
  function Rewind(q: Queue): Queue {
    if Empty(q) then q.(current := Some(0), candidates := 0) else q
  }

  function Urgent(q: Queue, r: Ref, score: nat): Queue {
    var u := Rewind(q);
    if u.candidates < |u.slots|
    then var p := Push(u, u.candidates, r, score); p.(candidates := p.candidates + 1)
    else u
  }

  // ---------------------------------------------------------------- handing out

  datatype Scan = Exhausted(at: nat) | Declined(at: nat) | Locked(at: nat)

  /** The candidate loop of __evict_get_ref: `decline` are the references this caller leaves
      alone because they are dirty, `mem` those whose state can be swapped to locked. */
  function ScanFrom(slots: seq<Entry>, k: nat, limit: nat, decline: set<Ref>, mem: set<Ref>): (s: Scan)
    requires limit <= |slots|
    ensures k <= s.at
    ensures s.Exhausted? ==> s.at >= limit && (s.at > k ==> s.at == limit)
    ensures !s.Exhausted? ==> s.at < limit && slots[s.at].ref.Some?
    ensures s.Declined? ==> slots[s.at].ref.value in decline
    ensures s.Locked? ==> slots[s.at].ref.value in mem - decline
    ensures forall j :: k <= j < s.at && j < limit && slots[j].ref.Some? ==> slots[j].ref.value !in decline + mem
    decreases limit - k
  {
    if k >= limit then Exhausted(k)
    else if slots[k].ref.None? then ScanFrom(slots, k + 1, limit, decline, mem)
    else if slots[k].ref.value in decline then Declined(k)
    else if slots[k].ref.value in mem then Locked(k)
    else ScanFrom(slots, k + 1, limit, decline, mem)
  }

  /** `end` is the first slot the scan left as it was; everything from `current` to it is emptied. */
  datatype Taken = Taken(queue: Queue, handed: Option<Ref>, end: nat)

  function Take(q: Queue, limit: nat, decline: set<Ref>, mem: set<Ref>): Taken
    requires limit <= |q.slots|
  {
    if q.current.None? then Taken(q, None, 0)
    else
      var s := ScanFrom(q.slots, q.current.value, limit, decline, mem);
      var end := if s.Locked? then s.at + 1 else s.at;
      var next := if s.Declined? then s.at else s.at + 1;
      Taken(q.(slots := ClearRange(q.slots, q.current.value, end),
               current := if next < q.candidates then Some(next) else None),
            if s.Locked? then q.slots[s.at].ref else None,
            end)
  }

  function ServerLimit(q: Queue, half: bool): nat {
    if half && q.candidates > 1 then q.candidates / 2 else q.candidates
  }

  function Handed(t: Taken): multiset<Ref> {
    if t.handed.Some? then multiset{t.handed.value} else multiset{}
  }

  /** References a take drops because another thread already holds the page. */
  function Dropped(q: Queue, t: Taken): multiset<Ref>
    requires q.current.Some? ==> q.current.value <= t.end <= |q.slots|
  {
    if q.current.None? then multiset{}
    else Bag(q.slots[q.current.value..t.end]) - Handed(t)
  }

  ghost predicate Shape(q: Queue) {
    && q.candidates <= q.max
    && q.entries <= q.max
    && q.max <= |q.slots|
    && (q.current.Some? ==> q.current.value <= q.candidates)
    && WellTagged(q.slots, q.max)
  }

  lemma RunMember(slots: seq<Entry>, lo: nat, hi: nat, r: Ref)
    requires lo <= hi <= |slots| && r in Bag(slots[lo..hi])
    ensures r in Bag(slots)
    ensures exists k :: lo <= k < hi && slots[k].ref == Some(r)
  {
    hide Bag;
    BagMember(slots[lo..hi], r);
    BagMember(slots, r);
    var k :| 0 <= k < hi - lo && slots[lo..hi][k].ref == Some(r);
    assert slots[lo + k].ref == Some(r);
  }

  /** The slots a take empties, split at the one it hands out. */
  lemma TakenRun(q: Queue, limit: nat, decline: set<Ref>, mem: set<Ref>)
    requires Shape(q) && limit <= q.candidates && q.current.Some?
    ensures var t := Take(q, limit, decline, mem);
      && q.current.value <= t.end <= |q.slots|
      && (t.handed.Some? ==> t.handed.value in mem - decline && t.handed.value in Bag(q.slots))
      && Bag(q.slots[q.current.value..t.end]) == Dropped(q, t) + Handed(t)
      && (forall r :: r in Dropped(q, t) ==> r !in mem && r in Bag(q.slots))
  {
    hide Bag;
    var cur, t := q.current.value, Take(q, limit, decline, mem);
    var s := ScanFrom(q.slots, cur, limit, decline, mem);
    var run := q.slots[cur..s.at];
    if s.Locked? {
      assert q.slots[cur..t.end] == run + [q.slots[s.at]];
      BagAppend(run, [q.slots[s.at]]);
      BagOne(q.slots[s.at]);
      BagMember(q.slots, t.handed.value);
      assert Bag(q.slots[cur..t.end]) - Handed(t) == Bag(run);
    } else {
      assert Bag(q.slots[cur..t.end]) - Handed(t) == Bag(run);
    }
    forall r | r in Bag(run) ensures r !in mem && r in Bag(q.slots) {
      RunMember(q.slots, cur, s.at, r);
    }
  }

  lemma DroppedNothing(q: Queue, limit: nat, decline: set<Ref>, mem: set<Ref>)
    requires limit <= |q.slots| && q.current.None?
    ensures Dropped(q, Take(q, limit, decline, mem)) == multiset{}
  {
  }

  /** A take loses nothing: what was queued is still queued, handed out, or dropped because
      another thread had the page locked. */
  lemma TakeBag(q: Queue, limit: nat, decline: set<Ref>, mem: set<Ref>)
    requires Shape(q) && limit <= q.candidates
    ensures var t := Take(q, limit, decline, mem);
      && Shape(t.queue)
      && (q.current.Some? ==> q.current.value <= t.end <= |q.slots|)
      && Bag(q.slots) == Bag(t.queue.slots) + Dropped(q, t) + Handed(t)
      && (t.handed.Some? ==> t.handed.value in mem - decline && t.handed.value in Bag(q.slots))
      && (forall r :: r in Dropped(q, t) ==> r !in mem && r in Bag(q.slots))
  {
    hide Bag, Dropped;
    if q.current.None? {
      assert Dropped(q, Take(q, limit, decline, mem)) == multiset{} by { DroppedNothing(q, limit, decline, mem); }
    } else {
      TakenRun(q, limit, decline, mem);
      ClearRangeBag(q.slots, q.current.value, Take(q, limit, decline, mem).end);
    }
  }

  /** A live entry behind the new position was left without being looked at. */
  ghost predicate LeavesBehind(q: Queue, t: Taken) {
    exists k :: && 0 <= k < |t.queue.slots| && q.current.Some? && q.current.value <= k
                && k < (if t.queue.current.Some? then t.queue.current.value else q.candidates)
                && t.queue.slots[k].ref.Some?
  }

  /** A take steps over an entry it has not examined exactly when it may look at fewer slots than there
      are candidates, none of those it looks at stops it, and the slot behind them is live. */
  lemma LeavesBehindExactly(q: Queue, limit: nat, decline: set<Ref>, mem: set<Ref>)
    requires Shape(q) && limit <= q.candidates && q.current.Some?
    ensures var cur := q.current.value;
      var end := if cur > limit then cur else limit;
      LeavesBehind(q, Take(q, limit, decline, mem))
      <==> && end < q.candidates && q.slots[end].ref.Some?
           && forall k :: cur <= k < limit && q.slots[k].ref.Some? ==> q.slots[k].ref.value !in decline + mem
  {
    var t := Take(q, limit, decline, mem);
    var s := ScanFrom(q.slots, q.current.value, limit, decline, mem);
    if s.Exhausted? && s.at < q.candidates && q.slots[s.at].ref.Some? {
      assert t.queue.slots[s.at].ref.Some?;
    }
  }

  /** So a caller that may look at every candidate never steps over one. */
  lemma FullTakeLeavesNothing(q: Queue, decline: set<Ref>, mem: set<Ref>)
    requires Shape(q)
    ensures !LeavesBehind(q, Take(q, q.candidates, decline, mem))
  {
    if q.current.Some? {
      LeavesBehindExactly(q, q.candidates, decline, mem);
    }
  }

  /** The server on an ordinary queue does: with both pages dirty for others, it runs out at the half
      and parks the position behind slot 1. */
  lemma ServerStepsOver()
    ensures exists q: Queue, mem: set<Ref> ::
      Shape(q) && LeavesBehind(q, Take(q, ServerLimit(q, true), {}, mem))
  {
    var a, b := Ref(0, 0), Ref(0, 1);
    var q := Queue([Entry(Some(0), Some(a), 0), Entry(Some(0), Some(b), 0)], Some(0), 2, 2, 2);
    LeavesBehindExactly(q, 1, {}, {b});
    assert Shape(q) && LeavesBehind(q, Take(q, ServerLimit(q, true), {}, {b}));
  }

  // ---------------------------------------------------------------- the urgent queue

  /** Everything live in the urgent queue lies ahead of its position; drained means empty. */
  ghost predicate UrgentReady(q: Queue) {
    && Shape(q)
    && forall k :: 0 <= k < |q.slots| && q.slots[k].ref.Some? ==> q.current.Some? && q.current.value <= k < q.candidates
  }

  /** An urgent append writes an empty slot, so it displaces nobody. */
  lemma UrgentAppends(q: Queue, r: Ref, score: nat)
    requires UrgentReady(q) && Rewind(q).candidates < |q.slots|
    ensures q.slots[Rewind(q).candidates].ref.None?
    ensures UrgentReady(Urgent(q, r, score))
    ensures Bag(Urgent(q, r, score).slots) == Bag(q.slots) + multiset{r}
  {
    hide Bag;
    BagUpdate(q.slots, Rewind(q).candidates, Entry(Some(r.tree), Some(r), score));
  }

  lemma RewindKeeps(q: Queue)
    requires UrgentReady(q)
    ensures UrgentReady(Rewind(q))
  {
  }

  /** Nor does a take skip anything: urgent callers scan every candidate. */
  lemma UrgentTakes(q: Queue, decline: set<Ref>, mem: set<Ref>)
    requires UrgentReady(q)
    ensures UrgentReady(Take(q, q.candidates, decline, mem).queue)
  {
    hide Bag;
    var t := Take(q, q.candidates, decline, mem);
    TakeBag(q, q.candidates, decline, mem);
    forall k | 0 <= k < |q.slots| && t.queue.slots[k].ref.Some?
      ensures t.queue.current.Some? && t.queue.current.value <= k < q.candidates
    {
      assert q.slots[k].ref.Some?;
    }
  }

  /** A caller that declines nothing comes back empty-handed only when no page still queued as
      urgent could be locked. */
  lemma UrgentNotMissed(q: Queue, mem: set<Ref>)
    requires UrgentReady(q)
    ensures Take(q, q.candidates, {}, mem).handed.None? <==> forall r :: r in Bag(q.slots) ==> r !in mem
  {
    hide Bag;
    var t := Take(q, q.candidates, {}, mem);
    TakeBag(q, q.candidates, {}, mem);
    if t.handed.None? {
      forall r | r in Bag(q.slots) ensures r !in mem {
        BagMember(q.slots, r);
        var k :| 0 <= k < |q.slots| && q.slots[k].ref == Some(r);
        var s := ScanFrom(q.slots, q.current.value, q.candidates, {}, mem);
        assert s.Exhausted? && k < s.at;
      }
    }
  }

  lemma ClearsKeepUrgent(q: Queue, r: Ref, tree: nat)
    requires UrgentReady(q)
    ensures UrgentReady(q.(slots := ClearRef(q.slots, q.max, r)))
    ensures UrgentReady(q.(slots := ClearTree(q.slots, q.max, tree)))
  {
  }

  // ---------------------------------------------------------------- flags

  /** Flag and queue agree: the flagged pages are exactly the queued ones, each queued once. */
  ghost predicate Agree(queued: multiset<Ref>, flagged: set<Ref>) {
    queued == multiset(flagged)
  }

  lemma Unflag(queued: multiset<Ref>, gone: set<Ref>, flagged: set<Ref>)
    requires Agree(queued + multiset(gone), flagged)
    ensures gone <= flagged && Agree(queued, flagged - gone)
  {
    forall r: Ref ensures queued[r] == multiset(flagged - gone)[r] {
      assert (queued + multiset(gone))[r] == multiset(flagged)[r];
    }
    forall r | r in gone ensures r in flagged {
      assert (queued + multiset(gone))[r] == multiset(flagged)[r];
    }
  }

  lemma Flag(queued: multiset<Ref>, r: Ref, flagged: set<Ref>)
    requires Agree(queued, flagged) && r !in flagged
    ensures Agree(queued + multiset{r}, flagged + {r})
  {
  }
}
