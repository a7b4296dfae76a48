/** What the server does to an ordinary queue once it holds the queue's lock: sort, trim the
    empty tail, drop what exceeds the tracked maximum, and decide how many are candidates. */
module QueueRefill {
  import opened Options
  import opened LruQueue

  function Key(e: Entry, debug: bool): nat {
    if e.ref.None? then UINT64_MAX else if debug then 0 else e.score
  }

  ghost predicate Sorted(s: seq<Entry>, debug: bool) {
    forall i, j :: 0 <= i < j < |s| ==> Key(s[i], debug) <= Key(s[j], debug)
  }

  /** All that is used of qsort: it need not be stable. */
  ghost predicate IsSorting(before: seq<Entry>, after: seq<Entry>, debug: bool) {
    && |before| == |after|
    && multiset(before) == multiset(after)
    && Sorted(after, debug)
  }

  function Trim(slots: seq<Entry>, n: nat): (m: nat)
    requires n <= |slots|
    ensures m <= n && (m > 0 ==> slots[m - 1].ref.Some?)
    ensures forall k :: m <= k < n ==> slots[k].ref.None?
  {
    if n > 0 && slots[n - 1].ref.None? then Trim(slots, n - 1) else n
  }

  /** Length of the leading run of evict-soon scores. */
  function LeadingSoon(slots: seq<Entry>, c: nat, n: nat): (m: nat)
    requires c <= n <= |slots|
    ensures c <= m <= n
    ensures forall k :: c <= k < m ==> EvictSoon(slots[k].score)
    ensures m < n ==> !EvictSoon(slots[m].score)
    decreases n - c
  {
    if c < n && EvictSoon(slots[c].score) then LeadingSoon(slots, c + 1, n) else c
  }

  function Candidates(slots: seq<Entry>, entries: nat, aggressive: bool): nat
    requires entries <= |slots|
  {
    var soon := LeadingSoon(slots, 0, entries);
    if aggressive || soon == entries then entries
    else if soon > entries / 2 then soon
    else 1 + soon + (entries - soon - 1) / 3
  }

  /** How many of the entries are offered: all when eviction is aggressive or all of them are to go soon,
      just those that are to go soon when they are more than half, and otherwise those and a third of
      the rest, rounded up. */
  ghost predicate FairShare(slots: seq<Entry>, entries: nat, aggressive: bool, n: nat)
    requires entries <= |slots|
  {
    if aggressive then n == entries else exists soon: nat :: SoonRun(slots, entries, soon) && ShareOf(entries, soon, n)
  }

  ghost predicate ShareOf(entries: nat, soon: nat, n: nat) {
    if soon == entries then n == entries
    else if 2 * soon > entries then n == soon
    else entries - soon <= 3 * (n - soon) <= entries - soon + 2
  }

  /** The leading entries with a score below the first ordinary one are `soon` in number. */
  ghost predicate SoonRun(slots: seq<Entry>, entries: nat, soon: nat)
    requires entries <= |slots|
  {
    && soon <= entries
    && (forall k :: 0 <= k < soon ==> 0 < slots[k].score < READGEN_START_VALUE)
    && (soon < entries ==> slots[soon].score == 0 || slots[soon].score >= READGEN_START_VALUE)
  }

  lemma CandidatesFair(slots: seq<Entry>, entries: nat, aggressive: bool)
    requires 0 < entries <= |slots|
    ensures FairShare(slots, entries, aggressive, Candidates(slots, entries, aggressive))
  {
    var soon := LeadingSoon(slots, 0, entries);
    assert SoonRun(slots, entries, soon);
  }

  /** Two entries in the order the sort gives them: outside debug mode the scores of pages ascend, and
      nothing empty comes before a page, unless its score is the largest there is. */
  ghost predicate InOrder(a: Entry, b: Entry, debug: bool) {
    && (a.ref.Some? && b.ref.Some? && !debug ==> a.score <= b.score)
    && (b.ref.Some? && (debug || b.score < UINT64_MAX) ==> a.ref.Some?)
  }

  lemma SortedInOrder(s: seq<Entry>, debug: bool, i: nat, j: nat)
    requires Sorted(s, debug) && i < j < |s|
    ensures InOrder(s[i], s[j], debug)
  {
    assert Key(s[i], debug) <= Key(s[j], debug);
  }

  function Kept(slots: seq<Entry>, n: nat): nat
    requires n <= |slots|
  {
    var m := Trim(slots, n);
    if m > WALK_BASE then WALK_BASE else m
  }

  /** `sorted` are the first `entries` slots as the sort left them. */
  function Refill(q: Queue, sorted: seq<Entry>, aggressive: bool): Queue
    requires q.entries <= |q.slots| && |sorted| == q.entries
  {
    var s := sorted + q.slots[q.entries..];
    var kept := Kept(s, q.entries);
    var slots := ClearRange(s, kept, Trim(s, q.entries));
    if kept == 0
    then Queue(slots, None, 0, 0, q.max)
    else Queue(slots, Some(0), Candidates(slots, kept, aggressive), kept, q.max)
  }

  /** What the next walk relies on: it writes from `entries` up. */
  ghost predicate Ready(q: Queue) {
    && Shape(q)
    && |q.slots| == EVICT_SLOTS
    && q.entries <= WALK_BASE
    && q.candidates <= q.entries
    && forall k :: q.entries <= k < |q.slots| ==> q.slots[k].ref.None?
  }

  /** A queue between its walk and its sort. */
  ghost predicate Walked(q: Queue) {
    && Shape(q)
    && |q.slots| == EVICT_SLOTS
    && forall k :: q.entries <= k < |q.slots| ==> q.slots[k].ref.None?
  }

  lemma MemberOf(before: seq<Entry>, after: seq<Entry>, k: nat)
    requires multiset(before) == multiset(after) && k < |after|
    ensures exists j :: 0 <= j < |before| && before[j] == after[k]
  {
    assert after[k] in multiset(before);
  }

  lemma SortedShape(q: Queue, sorted: seq<Entry>, debug: bool)
    requires Walked(q) && IsSorting(q.slots[..q.entries], sorted, debug)
    ensures WellTagged(sorted + q.slots[q.entries..], q.max)
  {
    var s := sorted + q.slots[q.entries..];
    forall k | 0 <= k < |s|
      ensures s[k].ref.Some? ==> k < q.max && s[k].btree == Some(s[k].ref.value.tree)
      ensures s[k].ref.None? ==> s[k].btree.None?
    {
      if k < q.entries {
        MemberOf(q.slots[..q.entries], sorted, k);
        var j :| 0 <= j < q.entries && q.slots[..q.entries][j] == sorted[k];
        assert q.slots[j] == s[k];
      } else {
        assert s[k] == q.slots[k];
      }
    }
  }

  lemma CandidatesInRange(slots: seq<Entry>, entries: nat, aggressive: bool)
    requires 0 < entries <= |slots|
    ensures 1 <= Candidates(slots, entries, aggressive) <= entries
    ensures LeadingSoon(slots, 0, entries) <= Candidates(slots, entries, aggressive)
  {
  }

  lemma ClearRangeTagged(slots: seq<Entry>, lo: nat, hi: nat, n: nat)
    requires WellTagged(slots, n) && lo <= hi <= |slots|
    requires forall k :: hi <= k < |slots| ==> slots[k].ref.None?
    ensures WellTagged(ClearRange(slots, lo, hi), n)
    ensures forall k :: lo <= k < |slots| ==> ClearRange(slots, lo, hi)[k].ref.None?
  {
  }

  /** Every refill leaves a queue the next walk can fill, however the sort orders ties. */
  lemma RefillReady(q: Queue, sorted: seq<Entry>, debug: bool, aggressive: bool)
    requires Walked(q) && IsSorting(q.slots[..q.entries], sorted, debug)
    ensures Ready(Refill(q, sorted, aggressive))
  {
    SortedShape(q, sorted, debug);
    var s := sorted + q.slots[q.entries..];
    var kept, n := Kept(s, q.entries), Trim(s, q.entries);
    assert forall k :: q.entries <= k < |s| ==> s[k] == q.slots[k];
    assert forall k :: n <= k < |s| ==> s[k].ref.None?;
    ClearRangeTagged(s, kept, n, q.max);
    var slots := ClearRange(s, kept, n);
    if kept > 0 {
      CandidatesInRange(slots, kept, aggressive);
    }
    hide WellTagged, ClearRange, Trim, Candidates, Sorted;
  }

  /** Nothing is lost but what the trim to the tracked maximum drops. */
  lemma RefillBag(q: Queue, sorted: seq<Entry>, debug: bool, aggressive: bool)
    requires Walked(q) && IsSorting(q.slots[..q.entries], sorted, debug)
    ensures var s := sorted + q.slots[q.entries..];
      Bag(q.slots) == Bag(Refill(q, sorted, aggressive).slots) + Bag(s[Kept(s, q.entries)..Trim(s, q.entries)])
  {
    hide Bag;
    var lo, hi := q.slots[..q.entries], q.slots[q.entries..];
    var s := sorted + hi;
    assert q.slots == lo + hi;
    BagPermutation(lo, sorted);
    BagAppend(lo, hi);
    BagAppend(sorted, hi);
    ClearRangeBag(s, Kept(s, q.entries), Trim(s, q.entries));
  }

  /** A refill that found something offers at least one candidate and its fair share, and everything is
      in order, the entries it keeps as well as those it trims. */
  lemma RefillCandidates(q: Queue, sorted: seq<Entry>, debug: bool, aggressive: bool)
    requires Walked(q) && IsSorting(q.slots[..q.entries], sorted, debug)
    ensures var r := Refill(q, sorted, aggressive);
      && r.entries <= q.entries && r.entries <= |r.slots|
      && (r.entries > 0 ==> 1 <= r.candidates <= r.entries && r.current == Some(0))
      && (r.entries == 0 ==> r.candidates == 0 && r.current.None?)
      && (r.entries > 0 ==> FairShare(r.slots, r.entries, aggressive, r.candidates))
      && (forall i :: 0 <= i < r.entries ==> r.slots[i] == sorted[i])
      && (forall i, j :: 0 <= i < j < q.entries ==> InOrder(sorted[i], sorted[j], debug))
  {
    hide FairShare, Candidates, InOrder, Sorted, WellTagged;
    SortedShape(q, sorted, debug);
    var r := Refill(q, sorted, aggressive);
    if r.entries > 0 {
      CandidatesInRange(r.slots, r.entries, aggressive);
      CandidatesFair(r.slots, r.entries, aggressive);
    }
    forall i, j | 0 <= i < j < q.entries ensures InOrder(sorted[i], sorted[j], debug) {
      SortedInOrder(sorted, debug, i, j);
    }
  }

  /** When no live score reaches the largest key, the kept entries are packed: no candidate is empty. */
  lemma RefillPacked(q: Queue, sorted: seq<Entry>, debug: bool, aggressive: bool)
    requires Walked(q) && IsSorting(q.slots[..q.entries], sorted, debug)
    requires forall k :: 0 <= k < q.entries && q.slots[k].ref.Some? ==> debug || q.slots[k].score < UINT64_MAX
    ensures var r := Refill(q, sorted, aggressive);
      forall k :: 0 <= k < r.entries ==> r.slots[k].ref.Some?
  {
    var s := sorted + q.slots[q.entries..];
    var r := Refill(q, sorted, aggressive);
    forall k | 0 <= k < r.entries ensures r.slots[k].ref.Some? {
      var last := Trim(s, q.entries) - 1;
      MemberOf(q.slots[..q.entries], sorted, last);
      var j :| 0 <= j < q.entries && q.slots[..q.entries][j] == sorted[last];
      assert q.slots[j] == sorted[last] && k <= last;
      assert Key(sorted[k], debug) <= Key(sorted[last], debug);
    }
  }

  // ---------------------------------------------------------------- a sort

  function Position(s: seq<Entry>, e: Entry, debug: bool): (p: nat)
    ensures p <= |s|
    ensures forall k :: 0 <= k < p ==> Key(s[k], debug) < Key(e, debug)
    ensures p < |s| ==> Key(e, debug) <= Key(s[p], debug)
  {
    if s == [] || Key(e, debug) <= Key(s[0], debug) then 0 else 1 + Position(s[1..], e, debug)
  }

  lemma InsertedAt(s: seq<Entry>, p: nat, e: Entry, k: nat)
    requires p <= |s| && k <= |s|
    ensures (s[..p] + [e] + s[p..])[k] == if k < p then s[k] else if k == p then e else s[k - 1]
  {
  }

  lemma InsertSorted(s: seq<Entry>, p: nat, e: Entry, debug: bool)
    requires Sorted(s, debug) && p == Position(s, e, debug)
    ensures Sorted(s[..p] + [e] + s[p..], debug)
  {
    var r := s[..p] + [e] + s[p..];
    forall i, j | 0 <= i < j < |r| ensures Key(r[i], debug) <= Key(r[j], debug) {
      hide Key, Position;
      InsertedAt(s, p, e, i);
      InsertedAt(s, p, e, j);
      if i == p {
        SortedFrom(s, p, j - 1, debug);
      }
    }
  }

  lemma SortedFrom(s: seq<Entry>, p: nat, j: nat, debug: bool)
    requires Sorted(s, debug) && p <= j < |s|
    ensures Key(s[p], debug) <= Key(s[j], debug)
  {
  }

  lemma InsertKeeps(t: seq<Entry>, p: nat, s: seq<Entry>)
    requires s != [] && p <= |t| && multiset(t) == multiset(s[..|s| - 1])
    ensures multiset(t[..p] + [s[|s| - 1]] + t[p..]) == multiset(s)
  {
    assert t == t[..p] + t[p..];
    WithoutOne(t[..p], s[|s| - 1], t[p..]);
    WithoutOne(s[..|s| - 1], s[|s| - 1], []);
    assert s == s[..|s| - 1] + [s[|s| - 1]] + [] && s[..|s| - 1] + [] == s[..|s| - 1];
  }

  function Sort(s: seq<Entry>, debug: bool): (r: seq<Entry>)
    ensures IsSorting(s, r, debug)
  {
    if s == [] then []
    else
      var e, t := s[|s| - 1], Sort(s[..|s| - 1], debug);
      var p := Position(t, e, debug);
      InsertSorted(t, p, e, debug);
      InsertKeeps(t, p, s);
      t[..p] + [e] + t[p..]
  }
}
