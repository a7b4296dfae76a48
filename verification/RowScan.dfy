/** Moving backwards through row-store leaf pages.

    Rows and insert lists share one numbering: slot 1 is the list of keys smaller than every row,
    slot 2 is row 0, slot 3 the list after row 0, and so on. */
module RowScan {
  import opened Options
  import opened Records

  datatype Page = Page(smallest: seq<Record>, rows: seq<Record>, lists: seq<seq<Record>>)

  ghost predicate IsPage(page: Page) {
    |page.lists| == |page.rows|
  }

  /** The records of one slot. */
  function SlotRecords(page: Page, slot: nat): seq<Record>
    requires |page.lists| == |page.rows| && 1 <= slot <= 2 * |page.rows| + 1
  {
    if slot == 1 then page.smallest
    else if slot % 2 == 1 then page.lists[slot / 2 - 1]
    else [page.rows[slot / 2 - 1]]
  }

  /** All records of the slots before `slot`. */
  function Before(page: Page, slot: nat): seq<Record>
    requires |page.lists| == |page.rows| && 1 <= slot <= 2 * |page.rows| + 2
  {
    if slot == 1 then [] else Before(page, slot - 1) + SlotRecords(page, slot - 1)
  }

  function Flat(page: Page): seq<Record>
    requires |page.lists| == |page.rows|
  {
    Before(page, 2 * |page.rows| + 2)
  }

  /** The slots before `slot` come first on the page. */
  lemma {:induction false} BeforeIsPrefix(page: Page, slot: nat, end: nat)
    requires |page.lists| == |page.rows| && 1 <= slot <= end <= 2 * |page.rows| + 2
    ensures |Before(page, slot)| <= |Before(page, end)| && Before(page, slot) == Before(page, end)[..|Before(page, slot)|]
    decreases end
  {
    if slot < end {
      BeforeIsPrefix(page, slot, end - 1);
    }
  }

  lemma BeforeNext(page: Page, slot: nat)
    requires |page.lists| == |page.rows| && 1 <= slot <= 2 * |page.rows| + 1
    ensures Before(page, slot + 1) == Before(page, slot) + SlotRecords(page, slot)
  {
    hide SlotRecords;
  }

  lemma FlatAt(page: Page, slot: nat, i: nat)
    requires |page.lists| == |page.rows| && 1 <= slot <= 2 * |page.rows| + 1 && i < |SlotRecords(page, slot)|
    ensures |Before(page, slot)| + i < |Flat(page)|
    ensures Flat(page)[|Before(page, slot)| + i] == SlotRecords(page, slot)[i]
  {
    hide Before, SlotRecords;
    BeforeNext(page, slot);
    BeforeIsPrefix(page, slot + 1, 2 * |page.rows| + 2);
    var at := |Before(page, slot)| + i;
    assert Before(page, slot + 1)[at] == SlotRecords(page, slot)[i];
    assert Flat(page)[..|Before(page, slot + 1)|][at] == Flat(page)[at];
  }

  datatype Retry = NotSet | InInsert | InPage

  /** The part of a cursor that moves within one page.  `ins` is the index, in the list of the current
      slot, of the insert the cursor is on. */
  class RowCursor {
    const keyOnly: bool
    const lower: Option<Bound>
    var slot: nat
    var ins: Option<nat>
    var iterRetry: Retry
    var skipped: nat

    constructor (keyOnly: bool, lower: Option<Bound>)
      ensures this.keyOnly == keyOnly && this.lower == lower && iterRetry == NotSet
    {
      this.keyOnly, this.lower := keyOnly, lower;
      slot, ins, iterRetry, skipped := 1, None, NotSet, 0;
    }

    ghost predicate On(page: Page)
      reads this
    {
      && IsPage(page) && 1 <= slot <= 2 * |page.rows| + 1
      && (ins.Some? ==> slot % 2 == 1 && ins.value < |SlotRecords(page, slot)|)
    }

    /** How many records of the page come before the cursor's place. */
    ghost function Place(page: Page): nat
      requires On(page)
      reads this
    {
      |Before(page, slot)| + if ins.Some? then ins.value else 0
    }

    /** The cursor stands on a record, whose read has just been or may be tried again. */
    ghost predicate OnRecord(page: Page)
      reads this
    {
      On(page) && (iterRetry.InInsert? ==> ins.Some?) && (iterRetry.InPage? ==> ins.None? && slot % 2 == 0) && !iterRetry.NotSet?
    }

    /** Where the scan of this call begins: positions below it are still to be visited. */
    ghost function From(page: Page, newPage: bool, restart: bool): nat
      requires IsPage(page) && (!newPage ==> On(page))
      reads this
    {
      if newPage then |Flat(page)| else if restart then Place(page) + 1 else Place(page)
    }

    /** The outcome is what the scan `s` says, and the cursor stands where it says. */
    ghost predicate Ends(page: Page, r: Outcome, s: Scan)
      requires On(page)
      reads this
    {
      && (r.NotFound? ==> s == if r.outOfBounds then OutOfBounds else End)
      && (r.Got? ==> s == At(Place(page)))
      && (r.PrepareConflict? ==> s == Blocked(Place(page)) && !keyOnly)
      && (!r.NotFound? ==> OnRecord(page) && Place(page) < |Flat(page)|)
    }

    method RowPrev(page: Page, newPage: bool, restart: bool, busy: set<int>) returns (r: Outcome)
      requires IsPage(page) && !(newPage && restart) && !(keyOnly && restart)
      requires !newPage ==> On(page)
      requires restart ==> OnRecord(page)
      modifies this
      ensures On(page) && old(From(page, newPage, restart)) <= |Flat(page)|
      ensures Ends(page, r, ScanBack(Flat(page), keyOnly, lower, busy, old(From(page, newPage, restart))))
    {
      hide Flat, Before, ScanBack, SlotRecords;
      ghost var flat, from := Flat(page), From(page, newPage, restart);
      FromInRange(page, newPage, restart);
      skipped := 0;
      var move, atRow := !newPage && !restart, restart && iterRetry.InPage?;
      if !restart {
        iterRetry := NotSet;
      }
      if newPage {
        slot := 2 * |page.rows| + 1;
        ins := LastOf(page, slot);
        SlotSpan(page, slot);
      }
      while true
        invariant On(page) && (atRow ==> ins.None? && slot % 2 == 0 && !move && iterRetry.InPage?)
        invariant Todo(page, move, atRow) <= from <= |flat|
        invariant ScanBack(flat, keyOnly, lower, busy, from) == ScanBack(flat, keyOnly, lower, busy, Todo(page, move, atRow))
        decreases slot, if ins.Some? then ins.value + 1 else 0, !move
      {
        var seen;
        if atRow {
          seen := VisitRow(page, busy);
          move, atRow := true, false;
        } else {
          seen, move := PassInserts(page, move, busy);
        }
        if seen.Some? {
          return seen.value;
        }
      }
    }

    /** Take the insert before the current one, or, when the list is exhausted, the slot before. */
    method PassInserts(page: Page, move: bool, busy: set<int>) returns (r: Option<Outcome>, move': bool)
      requires On(page) && Todo(page, move, false) <= |Flat(page)|
      modifies this
      ensures On(page)
      ensures r.Some? ==> Ends(page, r.value, ScanBack(Flat(page), keyOnly, lower, busy, old(Todo(page, move, false))))
      ensures r.None? ==> Todo(page, move', false) <= old(Todo(page, move, false))
      ensures r.None? ==>
        ScanBack(Flat(page), keyOnly, lower, busy, old(Todo(page, move, false))) == ScanBack(Flat(page), keyOnly, lower, busy, Todo(page, move', false))
      ensures r.None? ==>
        slot < old(slot) || (slot == old(slot) && old(ins).Some? && ins.Some? && move' && (ins.value < old(ins).value || (ins == old(ins) && !move)))
    {
      hide Flat, Before, ScanBack, SlotRecords;
      if move && ins.Some? {
        ins := if ins.value == 0 then None else Some(ins.value - 1);
      }
      iterRetry := InInsert;
      if ins.Some? {
        r := Visit(page, SlotRecords(page, slot)[ins.value], ins.value, busy);
        return r, true;
      }
      if slot == 1 {
        ScanEnd(page, keyOnly, lower, busy);
        return Some(NotFound(false)), true;
      }
      slot := slot - 1;
      SlotSpan(page, slot);
      if slot % 2 == 1 {
        ins := LastOf(page, slot);
        return None, false;
      }
      r := VisitRow(page, busy);
      move' := true;
    }

    method VisitRow(page: Page, busy: set<int>) returns (r: Option<Outcome>)
      requires On(page) && slot % 2 == 0 && ins.None?
      modifies this`iterRetry, this`skipped
      ensures Place(page) < |Flat(page)|
      ensures r.Some? ==> Ends(page, r.value, ScanBack(Flat(page), keyOnly, lower, busy, Place(page) + 1))
      ensures r.None? ==> ScanBack(Flat(page), keyOnly, lower, busy, Place(page) + 1) == ScanBack(Flat(page), keyOnly, lower, busy, Place(page))
    {
      hide Flat, Before, ScanBack, SlotRecords;
      iterRetry := InPage;
      SlotSpan(page, slot);
      r := Visit(page, page.rows[slot / 2 - 1], 0, busy);
    }

    /** Positions still to be visited, in the middle of a call. */
    ghost function Todo(page: Page, move: bool, atRow: bool): nat
      requires On(page)
      reads this
    {
      Place(page) + if atRow || (!move && ins.Some?) then 1 else 0
    }

    /** Look at the record the cursor is on. */
    method Visit(page: Page, rec: Record, ghost i: nat, busy: set<int>) returns (r: Option<Outcome>)
      requires On(page) && i < |SlotRecords(page, slot)| && rec == SlotRecords(page, slot)[i]
      requires i == (if ins.Some? then ins.value else 0)
      modifies this`skipped
      ensures Place(page) < |Flat(page)| && Flat(page)[Place(page)] == rec
      ensures var s := ScanBack(Flat(page), keyOnly, lower, busy, Place(page) + 1);
        && (r == Some(Got) ==> s == At(Place(page)))
        && (r.Some? && r.value.NotFound? ==> r.value.outOfBounds && s == OutOfBounds)
        && (r == Some(PrepareConflict) ==> s == Blocked(Place(page)) && !keyOnly)
        && (r.None? ==> s == ScanBack(Flat(page), keyOnly, lower, busy, Place(page)))
    {
      hide Flat, Before, SlotRecords;
      FlatAt(page, slot, i);
      if keyOnly {
        return Some(Got);
      }
      if BelowBound(lower, rec.key) {
        return Some(NotFound(true));
      }
      if rec.key in busy {
        return Some(PrepareConflict);
      }
      if !rec.read.Found? {
        skipped := skipped + 1;
        return None;
      }
      return Some(Got);
    }

    lemma FromInRange(page: Page, newPage: bool, restart: bool)
      requires IsPage(page) && (!newPage ==> On(page)) && (restart ==> OnRecord(page))
      ensures From(page, newPage, restart) <= |Flat(page)|
    {
      hide Flat, Before, SlotRecords;
      if !newPage {
        SlotSpan(page, slot);
        SpanInPage(page, slot);
      }
    }
  }

  lemma SlotSpan(page: Page, slot: nat)
    requires |page.lists| == |page.rows| && 1 <= slot <= 2 * |page.rows| + 1
    ensures |Before(page, slot + 1)| == |Before(page, slot)| + |SlotRecords(page, slot)|
    ensures slot % 2 == 0 ==> |SlotRecords(page, slot)| == 1 && SlotRecords(page, slot)[0] == page.rows[slot / 2 - 1]
    ensures slot == 2 * |page.rows| + 1 ==> |Flat(page)| == |Before(page, slot + 1)|
  {
  }

  lemma SpanInPage(page: Page, slot: nat)
    requires |page.lists| == |page.rows| && 1 <= slot <= 2 * |page.rows| + 1
    ensures |Before(page, slot + 1)| <= |Flat(page)|
  {
    BeforeIsPrefix(page, slot + 1, 2 * |page.rows| + 2);
  }

  lemma ScanEnd(page: Page, keyOnly: bool, lower: Option<Bound>, busy: set<int>)
    requires IsPage(page)
    ensures |Before(page, 1)| == 0 && ScanBack(Flat(page), keyOnly, lower, busy, 0) == End
  {
  }

  function LastOf(page: Page, slot: nat): (i: Option<nat>)
    requires |page.lists| == |page.rows| && 1 <= slot <= 2 * |page.rows| + 1
    ensures i == if SlotRecords(page, slot) == [] then None else Some(|SlotRecords(page, slot)| - 1)
  {
    var list := SlotRecords(page, slot);
    if list == [] then None else Some(|list| - 1)
  }

  // ---------------------------------------------------------------- the whole tree

  /** The records of the first `n` pages. */
  function All(pages: seq<Page>, n: nat): seq<Record>
    requires n <= |pages| && forall k :: 0 <= k < |pages| ==> |pages[k].lists| == |pages[k].rows|
  {
    if n == 0 then [] else All(pages, n - 1) + Flat(pages[n - 1])
  }

  lemma {:induction false} AllIsPrefix(pages: seq<Page>, n: nat, end: nat)
    requires n <= end <= |pages| && forall k :: 0 <= k < |pages| ==> |pages[k].lists| == |pages[k].rows|
    ensures |All(pages, n)| <= |All(pages, end)| && All(pages, n) == All(pages, end)[..|All(pages, n)|]
    decreases end
  {
    if n < end {
      AllIsPrefix(pages, n, end - 1);
    }
  }

  /** Scanning page `k` from position `q`, and the pages before it once it is exhausted. */
  lemma ScanPage(pages: seq<Page>, k: nat, keyOnly: bool, lower: Option<Bound>, busy: set<int>, q: nat)
    requires k < |pages| && forall j :: 0 <= j < |pages| ==> |pages[j].lists| == |pages[j].rows|
    requires q <= |Flat(pages[k])|
    ensures |All(pages, k)| + q <= |All(pages, |pages|)|
    ensures ScanBack(All(pages, |pages|), keyOnly, lower, busy, |All(pages, k)| + q) ==
      match ScanBack(Flat(pages[k]), keyOnly, lower, busy, q)
      case At(i) => At(|All(pages, k)| + i)
      case Blocked(i) => Blocked(|All(pages, k)| + i)
      case OutOfBounds => OutOfBounds
      case End => ScanBack(All(pages, |pages|), keyOnly, lower, busy, |All(pages, k)|)
  {
    hide Flat;
    var a, b, all := All(pages, k), Flat(pages[k]), All(pages, |pages|);
    AllIsPrefix(pages, k + 1, |pages|);
    assert All(pages, k + 1) == a + b;
    hide All;
    var rest := all[|a + b|..];
    assert all == (a + b) + rest;
    ScanBackPrefix(a + b, rest, keyOnly, lower, busy, |a| + q);
    ScanBackPrefix(a + b, rest, keyOnly, lower, busy, |a|);
    ScanBackPrefix(a, b, keyOnly, lower, busy, |a|);
    ScanBackAppend(a, b, keyOnly, lower, busy, q);
  }

  lemma RecordOfPage(pages: seq<Page>, k: nat, i: nat)
    requires k < |pages| && forall j :: 0 <= j < |pages| ==> |pages[j].lists| == |pages[j].rows|
    requires i < |Flat(pages[k])|
    ensures |All(pages, k)| + i < |All(pages, |pages|)| && All(pages, |pages|)[|All(pages, k)| + i] == Flat(pages[k])[i]
  {
    hide Flat;
    AllIsPrefix(pages, k + 1, |pages|);
    assert All(pages, k + 1) == All(pages, k) + Flat(pages[k]);
    hide All;
  }

  /** A record of the page: one of its rows or in one of its insert lists. */
  ghost predicate Holds(page: Page, r: Record) {
    r in page.smallest || r in page.rows || exists i :: 0 <= i < |page.lists| && r in page.lists[i]
  }

  lemma SlotHolds(page: Page, slot: nat, r: Record)
    requires |page.lists| == |page.rows| && 1 <= slot <= 2 * |page.rows| + 1 && r in SlotRecords(page, slot)
    ensures Holds(page, r)
  {
  }

  lemma {:induction false} BeforeHolds(page: Page, slot: nat, r: Record)
    requires |page.lists| == |page.rows| && 1 <= slot <= 2 * |page.rows| + 2 && r in Before(page, slot)
    ensures Holds(page, r)
  {
    hide SlotRecords, Holds;
    if slot > 1 {
      BeforeNext(page, slot - 1);
      if r in Before(page, slot - 1) {
        BeforeHolds(page, slot - 1, r);
      } else {
        SlotHolds(page, slot - 1, r);
      }
    }
  }

  lemma InFlat(page: Page, slot: nat, r: Record)
    requires |page.lists| == |page.rows| && 1 <= slot <= 2 * |page.rows| + 1 && r in SlotRecords(page, slot)
    ensures r in Flat(page)
  {
    hide Flat, Before, SlotRecords;
    var i :| 0 <= i < |SlotRecords(page, slot)| && SlotRecords(page, slot)[i] == r;
    FlatAt(page, slot, i);
  }

  lemma FlatHolds(page: Page, r: Record)
    requires |page.lists| == |page.rows|
    ensures r in Flat(page) <==> Holds(page, r)
  {
    if r in Flat(page) {
      BeforeHolds(page, 2 * |page.rows| + 2, r);
    } else if Holds(page, r) {
      if r in page.smallest {
        InFlat(page, 1, r);
      } else if r in page.rows {
        var i :| 0 <= i < |page.rows| && page.rows[i] == r;
        InFlat(page, 2 * i + 2, r);
      } else {
        var i :| 0 <= i < |page.lists| && r in page.lists[i];
        InFlat(page, 2 * i + 3, r);
      }
    }
  }

  /** A record of one of the first `n` pages. */
  ghost predicate InTree(pages: seq<Page>, n: nat, r: Record)
    requires n <= |pages|
  {
    exists k :: 0 <= k < n && Holds(pages[k], r)
  }

  lemma {:induction false} AllHolds(pages: seq<Page>, n: nat, r: Record)
    requires n <= |pages| && forall k :: 0 <= k < |pages| ==> |pages[k].lists| == |pages[k].rows|
    ensures r in All(pages, n) <==> InTree(pages, n, r)
  {
    if n > 0 {
      hide Flat, Holds;
      AllHolds(pages, n - 1, r);
      FlatHolds(pages[n - 1], r);
    }
  }

  /** Exactly the records of the tree to be shown, each once, in descending key order. */
  ghost predicate ListsTree(pages: seq<Page>, keyOnly: bool, lower: Option<Bound>, out: seq<Record>) {
    Descending(out) && forall r :: r in out <==> InTree(pages, |pages|, r) && Shown(r, keyOnly, lower)
  }

  /** Rows ascend, and the keys of each insert list lie between the rows around it. */
  ghost predicate OrderedPage(page: Page) {
    && IsPage(page) && SortedKeys(page.rows) && SortedKeys(page.smallest)
    && (forall r :: r in page.smallest && page.rows != [] ==> r.key < page.rows[0].key)
    && (forall i :: 0 <= i < |page.rows| ==> SortedKeys(page.lists[i]))
    && (forall i, r :: 0 <= i < |page.rows| && r in page.lists[i] ==>
          page.rows[i].key < r.key && (i + 1 < |page.rows| ==> r.key < page.rows[i + 1].key))
  }

  /** Pages in order hold keys in order. */
  ghost predicate OrderedTree(pages: seq<Page>) {
    && (forall k :: 0 <= k < |pages| ==> OrderedPage(pages[k]))
    && (forall j, k, r, s :: 0 <= j < k < |pages| && Holds(pages[j], r) && Holds(pages[k], s) ==> r.key < s.key)
  }

  lemma OrderedIsPage(page: Page)
    requires OrderedPage(page)
    ensures IsPage(page)
  {
  }

  /** Before a row everything is smaller, and before the list after it nothing is larger. */
  ghost predicate Under(page: Page, slot: nat, r: Record)
    requires 1 <= slot <= 2 * |page.rows| + 2
  {
    && (slot % 2 == 0 && slot / 2 <= |page.rows| ==> r.key < page.rows[slot / 2 - 1].key)
    && (slot % 2 == 1 && slot > 1 ==> r.key <= page.rows[slot / 2 - 1].key)
  }

  lemma SlotUnder(page: Page, slot: nat, r: Record)
    requires OrderedPage(page) && 1 <= slot <= 2 * |page.rows| + 1
    ensures (slot > 1 && Under(page, slot, r)) || r in SlotRecords(page, slot) ==> Under(page, slot + 1, r)
    ensures SortedKeys(SlotRecords(page, slot))
  {
  }

  lemma SlotOver(page: Page, slot: nat, r: Record, s: Record)
    requires OrderedPage(page) && 1 < slot <= 2 * |page.rows| + 1
    requires Under(page, slot, r) && s in SlotRecords(page, slot)
    ensures r.key < s.key
  {
  }

  lemma {:induction false} BeforeSorted(page: Page, slot: nat)
    requires OrderedPage(page) && 1 <= slot <= 2 * |page.rows| + 2
    ensures SortedKeys(Before(page, slot)) && forall r :: r in Before(page, slot) ==> Under(page, slot, r)
  {
    hide OrderedPage, Under, SortedKeys, SlotRecords;
    OrderedIsPage(page);
    NoneSorted();
    if slot > 1 {
      BeforeSorted(page, slot - 1);
      SlotsJoin(page, slot - 1, Before(page, slot - 1));
    }
  }

  lemma SlotsJoin(page: Page, slot: nat, a: seq<Record>)
    requires OrderedPage(page) && 1 <= slot <= 2 * |page.rows| + 1 && (slot == 1 ==> a == [])
    requires SortedKeys(a) && forall r :: r in a ==> Under(page, slot, r)
    ensures SortedKeys(a + SlotRecords(page, slot))
    ensures forall r :: r in a + SlotRecords(page, slot) ==> Under(page, slot + 1, r)
  {
    hide OrderedPage, SlotRecords, Under, SortedKeys;
    OrderedIsPage(page);
    var b := SlotRecords(page, slot);
    forall r | r in a + b ensures Under(page, slot + 1, r) {
      SlotUnder(page, slot, r);
    }
    forall r, s | r in a && s in b ensures r.key < s.key {
      SlotOver(page, slot, r, s);
    }
    SlotUnder(page, slot, Record(0, Invalid));
    SortedJoin(a, b);
  }

  /** A tree in order is a sequence of records in key order. */
  lemma {:induction false} AllSorted(pages: seq<Page>, n: nat)
    requires n <= |pages| && OrderedTree(pages)
    ensures SortedKeys(All(pages, n))
  {
    hide Flat, OrderedPage, SortedKeys, Holds;
    forall k | 0 <= k < |pages| ensures IsPage(pages[k]) {
      OrderedIsPage(pages[k]);
    }
    if n == 0 {
      NoneSorted();
    } else {
      var a, b := All(pages, n - 1), Flat(pages[n - 1]);
      AllSorted(pages, n - 1);
      assert SortedKeys(b) by { FlatSorted(pages[n - 1]); }
      forall r, s | r in a && s in b ensures r.key < s.key {
        AllHolds(pages, n - 1, r);
        FlatHolds(pages[n - 1], s);
      }
      SortedJoin(a, b);
    }
  }

  lemma FlatSorted(page: Page)
    requires OrderedPage(page)
    ensures SortedKeys(Flat(page))
  {
    BeforeSorted(page, 2 * |page.rows| + 2);
  }

  lemma NoneSorted()
    ensures SortedKeys([])
  {
  }

  lemma TreeShown(pages: seq<Page>, keyOnly: bool, lower: Option<Bound>)
    requires OrderedTree(pages)
    ensures forall k :: 0 <= k < |pages| ==> IsPage(pages[k])
    ensures ListsTree(pages, keyOnly, lower, Listing(All(pages, |pages|), keyOnly, lower, |All(pages, |pages|)|))
  {
    forall k | 0 <= k < |pages| ensures IsPage(pages[k]) {
      OrderedIsPage(pages[k]);
    }
    AllSorted(pages, |pages|);
    ListingIsShown(All(pages, |pages|), keyOnly, lower);
    hide OrderedTree, All, Listing, Shown, InTree;
    forall r ensures r in All(pages, |pages|) <==> InTree(pages, |pages|, r) {
      AllHolds(pages, |pages|, r);
    }
  }

  class BtreeCursor {
    const pages: seq<Page>
    const row: RowCursor
    var ref: Option<nat>
    var retryPrev: bool

    constructor (pages: seq<Page>, keyOnly: bool, lower: Option<Bound>)
      requires forall k :: 0 <= k < |pages| ==> IsPage(pages[k])
      ensures Valid() && ref.None? && this.pages == pages && row.keyOnly == keyOnly && row.lower == lower && fresh(row)
    {
      this.pages := pages;
      row := new RowCursor(keyOnly, lower);
      ref, retryPrev := None, false;
    }

    ghost predicate Valid()
      reads this, row
    {
      && (forall k :: 0 <= k < |pages| ==> IsPage(pages[k]))
      && (ref.Some? ==> ref.value < |pages| && row.On(pages[ref.value]))
      && (retryPrev ==> ref.Some? && row.OnRecord(pages[ref.value]) && !row.keyOnly)
    }

    /** How many records of the tree come before the cursor. */
    ghost function Place(): nat
      requires Valid() && ref.Some?
      reads this, row
    {
      |All(pages, ref.value)| + row.Place(pages[ref.value])
    }

    ghost function From(): nat
      requires Valid()
      reads this, row
    {
      if ref.None? then |All(pages, |pages|)| else Place() + if retryPrev then 1 else 0
    }

    /** Move to the previous record of the tree. */
    method BtcurPrev(busy: set<int>) returns (r: Outcome)
      requires Valid()
      modifies this, row
      ensures Valid() && old(From()) <= |All(pages, |pages|)|
      ensures Returns(r, ScanBack(All(pages, |pages|), row.keyOnly, row.lower, busy, old(From())))
      ensures Arrives(r, old(From()), busy)
    {
      hide Flat, All, ScanBack, BtreeCursor.Arrives;
      FromInTree();
      ghost var all := All(pages, |pages|);
      ghost var from: nat, todo: nat := From(), From();
      ScanComesTo(all, row.keyOnly, row.lower, busy, from);
      var restart, newPage := retryPrev, false;
      retryPrev := false;
      while true
        invariant (forall k :: 0 <= k < |pages| ==> IsPage(pages[k])) && !retryPrev && !(newPage && restart)
        invariant ref.Some? ==> ref.value < |pages| && (newPage || row.On(pages[ref.value]))
        invariant restart ==> ref.Some? && row.OnRecord(pages[ref.value]) && !row.keyOnly
        invariant todo <= from <= |all| && ScanBack(all, row.keyOnly, row.lower, busy, from) == ScanBack(all, row.keyOnly, row.lower, busy, todo)
        invariant ref.Some? ==> todo == |All(pages, ref.value)| + row.From(pages[ref.value], newPage, restart)
        invariant ref.None? ==> todo == |all| && !newPage
        decreases if ref.Some? then ref.value else |pages|
      {
        if ref.Some? {
          r := TryPage(ref.value, newPage, restart, busy, todo);
          if !r.NotFound? || r.outOfBounds {
            ArrivesAt(r, from, busy);
            return;
          }
          todo := |All(pages, ref.value)|;
        }
        Walk();
        if ref.None? {
          NothingBefore(pages, row.keyOnly, row.lower, busy);
          ArrivesAt(NotFound(false), from, busy);
          return NotFound(false);
        }
        AllBefore(pages, ref.value);
        newPage, restart := true, false;
      }
    }

    /** Try the page the cursor holds. */
    method TryPage(k: nat, newPage: bool, restart: bool, busy: set<int>, ghost todo: nat) returns (r: Outcome)
      requires forall j :: 0 <= j < |pages| ==> |pages[j].lists| == |pages[j].rows|
      requires k < |pages| && ref == Some(k) && !retryPrev
      requires !(newPage && restart) && (newPage || row.On(pages[k]))
      requires restart ==> row.OnRecord(pages[k]) && !row.keyOnly
      requires todo == |All(pages, k)| + row.From(pages[k], newPage, restart) && todo <= |All(pages, |pages|)|
      modifies this, row
      ensures Valid()
      ensures |All(pages, k)| <= todo
      ensures r == NotFound(false) ==> ref == Some(k) && !retryPrev
      ensures r == NotFound(false) ==>
        ScanBack(All(pages, |pages|), row.keyOnly, row.lower, busy, todo) == ScanBack(All(pages, |pages|), row.keyOnly, row.lower, busy, |All(pages, k)|)
      ensures r != NotFound(false) ==> Returns(r, ScanBack(All(pages, |pages|), row.keyOnly, row.lower, busy, todo))
    {
      hide Flat, All, ScanBack, RowCursor.On, RowCursor.OnRecord, RowCursor.From, RowCursor.Place;
      ghost var q := row.From(pages[k], newPage, restart);
      r := row.RowPrev(pages[k], newPage, restart, busy);
      ScanPage(pages, k, row.keyOnly, row.lower, busy, q);
      if r.PrepareConflict? {
        retryPrev := true;
      } else if r.NotFound? && r.outOfBounds {
        ref := None;
      }
    }

    /** The outcome is what the scan of all pages says, and the cursor stands where it says. */
    ghost predicate Returns(r: Outcome, s: Scan)
      requires Valid()
      reads this, row
    {
      && (r.NotFound? <==> ref.None?) && (r.PrepareConflict? <==> retryPrev)
      && (r.NotFound? ==> s == if r.outOfBounds then OutOfBounds else End)
      && (r.Got? ==> s == At(Place()))
      && (r.PrepareConflict? ==> s == Blocked(Place()))
      && (!r.NotFound? ==> row.OnRecord(pages[ref.value]) && row.Place(pages[ref.value]) < |Flat(pages[ref.value])|)
    }

    /** In the records' own terms: the record returned is one to show, the conflict is a prepared update,
        and nothing from the cursor's old place back to either is one or the other. */
    ghost predicate Arrives(r: Outcome, from: nat, busy: set<int>)
      requires Valid() && from <= |All(pages, |pages|)|
      reads this, row
    {
      && (!r.NotFound? ==> ref.Some?)
      && ComesTo(match r case Got => At(Place()) case PrepareConflict => Blocked(Place()) case NotFound(out) => if out then OutOfBounds else End,
                 All(pages, |pages|), row.keyOnly, row.lower, busy, from)
    }

    lemma ArrivesAt(r: Outcome, from: nat, busy: set<int>)
      requires Valid() && from <= |All(pages, |pages|)|
      requires Returns(r, ScanBack(All(pages, |pages|), row.keyOnly, row.lower, busy, from))
      ensures Arrives(r, from, busy)
    {
      hide All, ScanBack, ComesTo;
      ScanComesTo(All(pages, |pages|), row.keyOnly, row.lower, busy, from);
    }

    lemma FromInTree()
      requires Valid()
      ensures From() <= |All(pages, |pages|)|
    {
      hide Flat, All, ScanBack;
      if ref.Some? {
        row.FromInRange(pages[ref.value], false, retryPrev);
        ScanPage(pages, ref.value, row.keyOnly, row.lower, {}, row.From(pages[ref.value], false, retryPrev));
      }
    }

    /** The tree walk: to the last page first, then to the page before. */
    method Walk()
      modifies this`ref
      ensures ref == if old(ref).None? then (if |pages| == 0 then None else Some(|pages| - 1))
                     else if old(ref).value == 0 then None else Some(old(ref).value - 1)
    {
      if ref.None? {
        ref := if |pages| == 0 then None else Some(|pages| - 1);
      } else {
        ref := if ref.value == 0 then None else Some(ref.value - 1);
      }
    }

    /** The record the cursor is on. */
    method Current() returns (rec: Record)
      requires Valid() && ref.Some? && row.OnRecord(pages[ref.value]) && row.Place(pages[ref.value]) < |Flat(pages[ref.value])|
      ensures Place() < |All(pages, |pages|)|
      ensures rec == All(pages, |pages|)[Place()]
    {
      hide Flat, All, Before;
      var page := pages[ref.value];
      SlotSpan(page, row.slot);
      rec := SlotRecords(page, row.slot)[if row.ins.Some? then row.ins.value else 0];
      FlatAt(page, row.slot, if row.ins.Some? then row.ins.value else 0);
      RecordOfPage(pages, ref.value, row.Place(page));
    }

    /** Scan the tree, calling again after every prepare conflict.  Whatever records meet prepared
        updates in the first `|rounds|` tries, the records returned are the same: of a tree in order,
        exactly those to be shown, each once, in descending key order. */
    method ListAll(rounds: seq<set<int>>) returns (out: seq<Record>)
      requires Valid() && ref.None?
      modifies this, row
      ensures out == Listing(All(pages, |pages|), row.keyOnly, row.lower, |All(pages, |pages|)|)
      ensures OrderedTree(pages) ==> ListsTree(pages, row.keyOnly, row.lower, out)
    {
      hide Flat, All, ScanBack, Listing, OrderedTree, ListsTree, BtreeCursor.Arrives, RowCursor.On, RowCursor.OnRecord, RowCursor.Place, BtreeCursor.Place;
      out := [];
      ghost var all := All(pages, |pages|);
      ghost var from: nat := |all|;
      ghost var todo := Listing(all, row.keyOnly, row.lower, from);
      ghost var whole := todo;
      if OrderedTree(pages) {
        TreeShown(pages, row.keyOnly, row.lower);
      }
      var round := 0;
      while true
        invariant Valid() && from == From() <= |all| && round <= |rounds|
        invariant todo == Listing(all, row.keyOnly, row.lower, from) && out + todo == whole
        decreases |rounds| - round, from
      {
        ghost var busy := if round < |rounds| then rounds[round] else {};
        if round == |rounds| {
          NeverBlocked(all, row.keyOnly, row.lower, from);
        }
        ListingAfter(all, row.keyOnly, row.lower, busy, from);
        var r := BtcurPrev(if round < |rounds| then rounds[round] else {});
        match r {
          case NotFound(_) =>
            return;
          case Got =>
            var rec := Current();
            out := out + [rec];
            todo := todo[1..];
          case PrepareConflict =>
            round := round + 1;
        }
        from := From();
      }
    }
  }

  lemma NothingBefore(pages: seq<Page>, keyOnly: bool, lower: Option<Bound>, busy: set<int>)
    requires forall k :: 0 <= k < |pages| ==> |pages[k].lists| == |pages[k].rows|
    ensures |All(pages, 0)| == 0 && ScanBack(All(pages, |pages|), keyOnly, lower, busy, 0) == End
  {
  }

  lemma AllBefore(pages: seq<Page>, k: nat)
    requires k < |pages| && forall j :: 0 <= j < |pages| ==> |pages[j].lists| == |pages[j].rows|
    ensures |All(pages, k + 1)| == |All(pages, k)| + |Flat(pages[k])|
  {
    hide Flat;
  }
}
