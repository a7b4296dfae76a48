/** Moving backwards through variable-length column-store records. */
module ColumnScan {
  import opened Options
  import opened Records
  import opened ColumnPage

  // ---------------------------------------------------------------- the records, one at a time

  /** Reading past the updates: the on-disk value, or what history holds for the record. */
  function OnDisk(page: Page, s: nat, recno: nat): Read
    requires s < |page.cells| && s < |page.inserts|
  {
    var m, cell := Match(page.inserts[s], recno), page.cells[s];
    if m.Some? && m.value.unstable.Some? then m.value.unstable.value
    else if cell.stopVisible then Tombstone
    else if cell.startVisible then Found(cell.value)
    else if recno in page.history then Found(page.history[recno]) else Invalid
  }

  /** What looking at one record tells: nothing to return, a prepared update, or a record. */
  datatype Sight = Nothing | Prepared | Shows(value: Option<Value>)

  /** Keys-only scans return every record that has an insert or a cell.  `busy` are the records with
      a prepared update or on-disk value; an on-disk value visible to everybody is not prepared. */
  function LookIn(page: Page, s: nat, keyOnly: bool, busy: set<nat>, recno: nat): Sight
    requires s < |page.cells| && s < |page.inserts|
  {
    var m, cell := Match(page.inserts[s], recno), page.cells[s];
    if keyOnly then (if m.Some? || !cell.deleted then Shows(None) else Nothing)
    else if recno in busy && (m.Some? || (!cell.deleted && !cell.visibleAll)) then Prepared
    else
      var read := if m.Some? && m.value.read != Invalid then m.value.read
                  else if cell.deleted then Tombstone else OnDisk(page, s, recno);
      if read.Found? then Shows(Some(read.value)) else Nothing
  }

  function SlotOf(page: Page, n: nat, recno: nat): (s: nat)
    requires n <= |page.cells|
    ensures n > 0 ==> s < n
  {
    if n <= 1 || Start(page, n - 1) <= recno then (if n == 0 then 0 else n - 1) else SlotOf(page, n - 1, recno)
  }

  lemma {:induction false} SlotIs(page: Page, n: nat, s: nat, recno: nat)
    requires s < n <= |page.cells| && In(page, s, recno)
    ensures SlotOf(page, n, recno) == s
  {
    if s < n - 1 {
      StartGrows(page, s + 1, n - 1);
      SlotIs(page, n - 1, s, recno);
    }
  }

  function Look(page: Page, keyOnly: bool, busy: set<nat>, recno: nat): Sight {
    if page.cells == [] || |page.inserts| != |page.cells| then Nothing
    else LookIn(page, SlotOf(page, |page.cells|, recno), keyOnly, busy, recno)
  }

  lemma LookIs(page: Page, s: nat, keyOnly: bool, busy: set<nat>, recno: nat)
    requires IsPage(page) && In(page, s, recno)
    ensures s < |page.inserts| && Look(page, keyOnly, busy, recno) == LookIn(page, s, keyOnly, busy, recno)
  {
    SlotIs(page, |page.cells|, s, recno);
  }

  /** The simple form: look at every record number in turn. */
  datatype Descent = PageEnd | BeyondBound | Held(recno: nat) | AtRecno(recno: nat, value: Option<Value>)

  function ScanDown(page: Page, keyOnly: bool, lower: Option<Bound>, busy: set<nat>, recno: nat): (s: Descent)
    ensures s.AtRecno? || s.Held? ==> 1 <= s.recno <= recno && page.refRecno <= s.recno
    decreases recno
  {
    if recno < page.refRecno || recno == 0 then PageEnd
    else if BelowBound(lower, recno) then BeyondBound
    else match Look(page, keyOnly, busy, recno)
      case Shows(v) => AtRecno(recno, v)
      case Prepared => Held(recno)
      case Nothing => ScanDown(page, keyOnly, lower, busy, recno - 1)
  }

  predicate Over(s: Descent) {
    s.PageEnd? || s.BeyondBound?
  }

  /** The same record, or both without one: a jump may leave the page without having met the bound. */
  predicate SameRecord(a: Descent, b: Descent) {
    a == b || (Over(a) && Over(b))
  }

  /** No record in `(end, recno]` of this page is one a scan returns or stops at. */
  ghost predicate Passed(page: Page, keyOnly: bool, busy: set<nat>, end: nat, recno: nat) {
    end <= recno && forall k :: end < k <= recno && k >= page.refRecno ==> Look(page, keyOnly, busy, k) == Nothing
  }

  lemma {:induction false} Skip(page: Page, keyOnly: bool, lower: Option<Bound>, busy: set<nat>, recno: nat, end: nat)
    requires Passed(page, keyOnly, busy, end, recno)
    ensures SameRecord(ScanDown(page, keyOnly, lower, busy, recno), ScanDown(page, keyOnly, lower, busy, end))
    ensures recno > end >= page.refRecno && end >= 1 && BelowBound(lower, end) ==> ScanDown(page, keyOnly, lower, busy, recno) == BeyondBound
    decreases recno
  {
    hide Look;
    if end < recno && recno >= page.refRecno {
      Skip(page, keyOnly, lower, busy, recno - 1, end);
      if BelowBound(lower, recno) {
        NoneBelow(page, keyOnly, lower, busy, end);
      }
    } else if end < recno {
      NoneBelow(page, keyOnly, lower, busy, end);
    }
  }

  lemma NoneBelow(page: Page, keyOnly: bool, lower: Option<Bound>, busy: set<nat>, recno: nat)
    requires recno < page.refRecno || BelowBound(lower, recno)
    ensures Over(ScanDown(page, keyOnly, lower, busy, recno))
  {
  }

  lemma PageFacts(page: Page, s: nat)
    requires IsPage(page)
    ensures |page.inserts| == |page.cells| && page.refRecno >= 1
    ensures s < |page.cells| ==> page.cells[s].rle >= 1 && SortedInserts(page.inserts[s])
  {
  }

  /** The scan at a record with something to say. */
  lemma ScanHere(page: Page, s: nat, keyOnly: bool, lower: Option<Bound>, busy: set<nat>, recno: nat)
    requires IsPage(page) && In(page, s, recno) && !BelowBound(lower, recno)
    ensures s < |page.inserts|
    ensures var l := LookIn(page, s, keyOnly, busy, recno);
      && (l.Shows? ==> ScanDown(page, keyOnly, lower, busy, recno) == AtRecno(recno, l.value))
      && (l.Prepared? ==> ScanDown(page, keyOnly, lower, busy, recno) == Held(recno))
      && (l.Nothing? ==> recno >= 1 && Passed(page, keyOnly, busy, recno - 1, recno))
  {
    hide Look, LookIn, IsPage, Start;
    PageFacts(page, s);
    LookIs(page, s, keyOnly, busy, recno);
  }

  /** Where the jump over a deleted run lands: the larger of the run's start less one and the nearest
      smaller insert. */
  function Landing(page: Page, s: nat, recno: nat): nat
    requires s < |page.cells| && s < |page.inserts| && SortedInserts(page.inserts[s]) && Start(page, s) >= 1
  {
    var smaller := LessThan(page.inserts[s], recno);
    if smaller.Some? && smaller.value > Start(page, s) - 1 then smaller.value else Start(page, s) - 1
  }

  lemma NoMatchAbove(ins: seq<Insert>, recno: nat, k: nat)
    requires SortedInserts(ins) && k < recno && (LessThan(ins, recno).Some? ==> LessThan(ins, recno).value < k)
    ensures Match(ins, k).None?
  {
    MatchIs(ins, k);
  }

  /** Jumping over a deleted run passes no record a scan would return or stop at. */
  lemma JumpsDown(page: Page, s: nat, keyOnly: bool, busy: set<nat>, recno: nat)
    requires IsPage(page) && In(page, s, recno) && s < |page.inserts| && page.cells[s].deleted
    requires LookIn(page, s, keyOnly, busy, recno) == Nothing
    ensures SortedInserts(page.inserts[s]) && Start(page, s) >= 1 && Landing(page, s, recno) < recno
    ensures Passed(page, keyOnly, busy, Landing(page, s, recno), recno)
  {
    hide IsPage, Start, Look;
    PageFacts(page, s);
    var end := Landing(page, s, recno);
    forall k | end < k <= recno && k >= page.refRecno ensures Look(page, keyOnly, busy, k) == Nothing {
      if k < recno {
        NoMatchAbove(page.inserts[s], recno, k);
      }
      LookIs(page, s, keyOnly, busy, k);
    }
  }

  /** From this in-bounds record of a deleted run that begins the page, with no insert before it, the
      jump leaves the page, past whatever lies below the bound. */
  ghost predicate Leaps(page: Page, lower: Option<Bound>, x: nat) {
    && In(page, 0, x) && |page.inserts| > 0 && !BelowBound(lower, x)
    && page.cells[0].deleted && page.cells[0].rle > 1
    && (forall i :: 0 <= i < |page.inserts[0]| ==> page.inserts[0][i].recno >= x)
    && (var m := Match(page.inserts[0], x); m.Some? ==> !m.value.read.Tombstone?)
  }

  /** A scan from `from` down comes to such a record. */
  ghost predicate LeapsOut(page: Page, lower: Option<Bound>, from: nat) {
    exists x: nat :: x <= from && Leaps(page, lower, x)
  }

  ghost predicate NoLeap(page: Page, lower: Option<Bound>, low: nat, high: nat) {
    forall x: nat :: low < x <= high ==> !Leaps(page, lower, x)
  }

  /** A move within the page passes no such record; a move off the page starts at one, or at the first
      record of the page. */
  ghost predicate MovedOn(page: Page, lower: Option<Bound>, was: nat, now: nat) {
    if now >= page.refRecno then NoLeap(page, lower, now, was) else was == page.refRecno || Leaps(page, lower, was)
  }

  lemma StepMoves(page: Page, lower: Option<Bound>, s: nat, was: nat)
    requires IsPage(page) && In(page, s, was) && was >= 1
    requires var m := Match(page.inserts[s], was);
      !page.cells[s].deleted || page.cells[s].rle == 1 || (m.Some? && m.value.read.Tombstone?)
    ensures MovedOn(page, lower, was, was - 1)
  {
    if In(page, 0, was) {
      OneSlot(page, 0, s, was);
    }
  }

  lemma JumpMoves(page: Page, lower: Option<Bound>, s: nat, was: nat)
    requires IsPage(page) && In(page, s, was) && !BelowBound(lower, was)
    requires page.cells[s].deleted && page.cells[s].rle > 1
    requires var m := Match(page.inserts[s], was); m.Some? ==> !m.value.read.Tombstone?
    requires Start(page, s) >= 1
    ensures MovedOn(page, lower, was, Landing(page, s, was))
  {
    var now := Landing(page, s, was);
    if now >= page.refRecno {
      forall x | now < x <= was ensures !Leaps(page, lower, x) {
        if In(page, 0, x) {
          OneSlot(page, 0, s, x);
          var i :| 0 <= i < |page.inserts[0]| && page.inserts[0][i].recno == now;
        }
      }
    } else {
      assert s == 0;
    }
  }

  lemma {:induction false} BeyondMeansBelow(page: Page, keyOnly: bool, lower: Option<Bound>, busy: set<nat>, recno: nat)
    ensures ScanDown(page, keyOnly, lower, busy, recno) == BeyondBound ==> BelowBound(lower, page.refRecno)
    decreases recno
  {
    hide Look, ScanDown;
    ScanStep(page, keyOnly, lower, busy, recno);
    if recno > 0 {
      BeyondMeansBelow(page, keyOnly, lower, busy, recno - 1);
    }
  }

  lemma StepsDown(page: Page, s: nat, keyOnly: bool, busy: set<nat>, recno: nat)
    requires IsPage(page) && In(page, s, recno) && s < |page.inserts|
    requires LookIn(page, s, keyOnly, busy, recno) == Nothing
    ensures recno >= 1 && Passed(page, keyOnly, busy, recno - 1, recno)
  {
    ScanHere(page, s, keyOnly, None, busy, recno);
  }

  /** Every record of the cell without a visible update reads as `v`. */
  ghost predicate Uniform(page: Page, s: nat, v: Value) {
    && s < |page.cells| && s < |page.inserts| && !page.cells[s].deleted && page.cells[s].visibleAll
    && forall r :: In(page, s, r) ==> OnDisk(page, s, r) == Found(v)
  }

  /** A cell that begins visible to everybody and has no visible stop reads the same for all its
      records without a visible update exactly when no update restored there by rollback-to-stable
      says otherwise. */
  lemma UniformExactly(page: Page, s: nat)
    requires s < |page.cells| && s < |page.inserts| && SortedInserts(page.inserts[s])
    requires var c := page.cells[s]; c.visibleAll && c.startVisible && !c.stopVisible && !c.deleted
    requires forall i :: 0 <= i < |page.inserts[s]| ==> In(page, s, page.inserts[s][i].recno)
    ensures var v := page.cells[s].value;
      Uniform(page, s, v) <==>
        forall i :: 0 <= i < |page.inserts[s]| ==> page.inserts[s][i].unstable in {None, Some(Found(v))}
  {
    hide In, Start;
    forall i | 0 <= i < |page.inserts[s]| ensures Match(page.inserts[s], page.inserts[s][i].recno) == Some(page.inserts[s][i]) {
      MatchOne(page.inserts[s], i);
    }
  }

  lemma MatchOne(ins: seq<Insert>, i: nat)
    requires SortedInserts(ins) && i < |ins|
    ensures Match(ins, ins[i].recno) == Some(ins[i])
  {
    MatchIs(ins, ins[i].recno);
  }

  /** An on-disk value visible to everybody is what every record of its cell reads as, whatever the
      history store holds. */
  lemma VisibleAllIsUniform(page: Page, s: nat, recno: nat, v: Value)
    requires IsPage(page) && s < |page.cells| && s < |page.inserts| && page.cells[s].visibleAll && !page.cells[s].deleted
    requires OnDisk(page, s, recno) == Found(v)
    ensures Uniform(page, s, v)
  {
    forall r ensures var m := Match(page.inserts[s], r); m.Some? ==> m.value.unstable.None? {
      var m := Match(page.inserts[s], r);
      if m.Some? {
        var i :| 0 <= i < |page.inserts[s]| && page.inserts[s][i] == m.value;
      }
    }
  }

  // ---------------------------------------------------------------- what a record reads as

  ghost predicate Inserted(page: Page, s: nat, k: nat) {
    s < |page.inserts| && exists ins :: ins in page.inserts[s] && ins.recno == k
  }

  /** Record `k` of cell `s` reads as `v`: a visible update says so; or there is none and the cell is not
      deleted, and an update restored by rollback-to-stable says so, or, failing that, the cell does or
      what history holds from before it, unless the record's end is visible. */
  ghost predicate Reads(page: Page, s: nat, k: nat, v: Value) {
    && s < |page.cells| && s < |page.inserts|
    && ( || (exists ins :: ins in page.inserts[s] && ins.recno == k && ins.read == Found(v))
         || ( && (forall ins :: ins in page.inserts[s] && ins.recno == k ==> ins.read.Invalid?)
              && !page.cells[s].deleted
              && ( || (exists ins :: ins in page.inserts[s] && ins.recno == k && ins.unstable == Some(Found(v)))
                   || ( && (forall ins :: ins in page.inserts[s] && ins.recno == k ==> ins.unstable.None?)
                        && !page.cells[s].stopVisible
                        && if page.cells[s].startVisible then v == page.cells[s].value
                           else k in page.history && page.history[k] == v))))
  }

  /** A prepared update, or a prepared value on disk that not everybody can see, is in the way. */
  ghost predicate Conflicts(page: Page, s: nat, k: nat, busy: set<nat>) {
    k in busy && s < |page.cells| && (Inserted(page, s, k) || (!page.cells[s].deleted && !page.cells[s].visibleAll))
  }

  lemma MatchOnly(page: Page, s: nat, k: nat)
    requires IsPage(page) && s < |page.cells|
    ensures |page.inserts| == |page.cells|
    ensures forall ins :: ins in page.inserts[s] && ins.recno == k ==> Match(page.inserts[s], k) == Some(ins)
    ensures Inserted(page, s, k) <==> Match(page.inserts[s], k).Some?
  {
    hide IsPage;
    PageFacts(page, s);
    forall ins | ins in page.inserts[s] && ins.recno == k ensures Match(page.inserts[s], k) == Some(ins) {
      var i :| 0 <= i < |page.inserts[s]| && page.inserts[s][i] == ins;
      MatchOne(page.inserts[s], i);
    }
  }

  lemma LookReads(page: Page, s: nat, busy: set<nat>, k: nat, v: Value)
    requires IsPage(page) && In(page, s, k)
    ensures Look(page, false, busy, k) == Shows(Some(v)) <==> Reads(page, s, k, v) && !Conflicts(page, s, k, busy)
    ensures Look(page, false, busy, k) == Prepared <==> Conflicts(page, s, k, busy)
    ensures Look(page, false, busy, k) != Shows(None)
  {
    hide IsPage, Look, In;
    PageFacts(page, s);
    LookIs(page, s, false, busy, k);
    MatchOnly(page, s, k);
  }

  lemma LookKeys(page: Page, s: nat, busy: set<nat>, k: nat)
    requires IsPage(page) && In(page, s, k)
    ensures Look(page, true, busy, k) == if Inserted(page, s, k) || !page.cells[s].deleted then Shows(None) else Nothing
  {
    hide IsPage, Look, In;
    PageFacts(page, s);
    LookIs(page, s, true, busy, k);
    MatchOnly(page, s, k);
  }

  lemma {:induction false} SlotIn(page: Page, n: nat, k: nat)
    requires n <= |page.cells| && page.refRecno <= k < Start(page, n)
    ensures exists s: nat :: s < n && In(page, s, k)
  {
    if k < Start(page, n - 1) {
      SlotIn(page, n - 1, k);
    } else {
      assert In(page, n - 1, k);
    }
  }

  /** A record to be returned, with what it reads as, or, where no values are wanted, for having an insert
      or a cell that is not deleted. */
  ghost predicate ToList(page: Page, keyOnly: bool, lower: Option<Bound>, s: nat, k: nat, v: Option<Value>) {
    && s < |page.cells| && Inside(lower, k)
    && if keyOnly then v.None? && (Inserted(page, s, k) || !page.cells[s].deleted)
       else v.Some? && Reads(page, s, k, v.value)
  }

  ghost predicate OnPage(page: Page, d: Descent) {
    d.AtRecno? && exists s: nat :: In(page, s, d.recno)
  }

  /** The records listed are those to be returned, each once, in descending order. */
  ghost predicate Listed(page: Page, keyOnly: bool, lower: Option<Bound>, out: seq<Descent>) {
    && (forall d :: d in out ==> OnPage(page, d))
    && (forall i, j :: 0 <= i < j < |out| ==> out[i].AtRecno? && out[j].AtRecno? && out[i].recno > out[j].recno)
    && forall s: nat, k: nat, v | In(page, s, k) :: AtRecno(k, v) in out <==> ToList(page, keyOnly, lower, s, k, v)
  }

  lemma ListedHere(page: Page, keyOnly: bool, lower: Option<Bound>, s: nat, k: nat, v: Option<Value>, top: nat)
    requires IsPage(page) && In(page, s, k) && k <= top
    ensures AtRecno(k, v) in ListDown(page, keyOnly, lower, top) <==> ToList(page, keyOnly, lower, s, k, v)
  {
    hide IsPage, Look, Reads, ListDown;
    PageFacts(page, s);
    ListDownIsEverything(page, keyOnly, lower, top, k, v);
    if keyOnly {
      LookKeys(page, s, {}, k);
    } else {
      LookReads(page, s, {}, k, if v.Some? then v.value else "");
    }
  }

  lemma ListDownListed(page: Page, keyOnly: bool, lower: Option<Bound>)
    requires IsPage(page)
    ensures |page.repeats| > 0 ==> page.repeats[|page.repeats| - 1].indx < |page.cells|
    ensures Listed(page, keyOnly, lower, ListDown(page, keyOnly, lower, LastRecno(page)))
  {
    hide IsPage, ListDown, LastRecno, ToList, BelowBound, Start;
    PageFacts(page, 0);
    LastRecnoIsLast(page);
    var top := LastRecno(page);
    var out := ListDown(page, keyOnly, lower, top);
    ListDownIsEverything(page, keyOnly, lower, top, 0, None);
    forall d | d in out ensures OnPage(page, d) {
      ListDownIsEverything(page, keyOnly, lower, top, d.recno, d.value);
      SlotIn(page, |page.cells|, d.recno);
    }
    forall s: nat, k: nat, v | In(page, s, k) ensures AtRecno(k, v) in out <==> ToList(page, keyOnly, lower, s, k, v) {
      StartGrows(page, s + 1, |page.cells|);
      assert k <= top by { CellEnds(page, s); }
      ListedHere(page, keyOnly, lower, s, k, v, top);
    }
  }

  lemma CellEnds(page: Page, s: nat)
    requires s < |page.cells|
    ensures Start(page, s + 1) == Start(page, s) + page.cells[s].rle
  {
  }

  /** Nothing in bounds among the records in `(low, high]` is to be returned or in the way. */
  ghost predicate Nothings(page: Page, keyOnly: bool, lower: Option<Bound>, busy: set<nat>, low: int, high: nat) {
    forall s: nat, k: nat | In(page, s, k) && low < k <= high && Inside(lower, k) ::
      if keyOnly then !Inserted(page, s, k) && page.cells[s].deleted
      else !Conflicts(page, s, k, busy) && forall v :: !Reads(page, s, k, v)
  }

  /** What one call meets: everything above it is nothing, and it is in bounds and itself. */
  lemma {:induction false} ScanMeets(page: Page, keyOnly: bool, lower: Option<Bound>, busy: set<nat>, from: nat)
    requires IsPage(page)
    ensures var d := ScanDown(page, keyOnly, lower, busy, from);
      && (Over(d) ==> Nothings(page, keyOnly, lower, busy, -1, from))
      && (!Over(d) ==> Nothings(page, keyOnly, lower, busy, d.recno, from) && Inside(lower, d.recno))
      && (d.Held? ==> forall s: nat :: In(page, s, d.recno) ==> !keyOnly && Conflicts(page, s, d.recno, busy))
      && (d.AtRecno? ==> forall s: nat :: In(page, s, d.recno) ==>
            ToList(page, keyOnly, lower, s, d.recno, d.value) && (keyOnly || !Conflicts(page, s, d.recno, busy)))
    decreases from
  {
    hide IsPage, Look, ScanDown, Reads, Conflicts, Inserted, Start;
    PageFacts(page, 0);
    ScanStep(page, keyOnly, lower, busy, from);
    if from >= page.refRecno && !BelowBound(lower, from) {
      var l := Look(page, keyOnly, busy, from);
      forall s: nat | In(page, s, from) ensures Tells(page, keyOnly, busy, s, from, l) {
        LookTells(page, keyOnly, busy, s, from);
      }
      if l.Nothing? {
        ScanMeets(page, keyOnly, lower, busy, from - 1);
      }
    }
  }

  /** What looking at a record tells, in the page's own terms. */
  ghost predicate Tells(page: Page, keyOnly: bool, busy: set<nat>, s: nat, k: nat, l: Sight) {
    && s < |page.cells|
    && match l
       case Nothing =>
         if keyOnly then !Inserted(page, s, k) && page.cells[s].deleted
         else !Conflicts(page, s, k, busy) && forall v :: !Reads(page, s, k, v)
       case Prepared => !keyOnly && Conflicts(page, s, k, busy)
       case Shows(v) =>
         if keyOnly then v.None? && (Inserted(page, s, k) || !page.cells[s].deleted)
         else v.Some? && Reads(page, s, k, v.value) && !Conflicts(page, s, k, busy)
  }

  lemma LookTells(page: Page, keyOnly: bool, busy: set<nat>, s: nat, k: nat)
    requires IsPage(page) && In(page, s, k)
    ensures Tells(page, keyOnly, busy, s, k, Look(page, keyOnly, busy, k))
  {
    hide IsPage, Look, Reads, Conflicts, Inserted, In;
    var l := Look(page, keyOnly, busy, k);
    InCells(page, s, k);
    if keyOnly {
      LookKeys(page, s, busy, k);
    } else {
      LookReads(page, s, busy, k, if l.Shows? && l.value.Some? then l.value.value else "");
      if l.Nothing? {
        forall v ensures !Reads(page, s, k, v) {
          LookReads(page, s, busy, k, v);
        }
      }
    }
  }

  lemma InCells(page: Page, s: nat, k: nat)
    requires In(page, s, k)
    ensures s < |page.cells|
  {
  }

  // ---------------------------------------------------------------- the cursor

  class VarCursor {
    const page: Page
    const keyOnly: bool
    const lower: Option<Bound>
    var recno: nat
    var value: Value
    /** The cell last decoded; `cacheable` says `tmp` holds the value of all its records. */
    var cipSaved: Option<nat>
    var cacheable: bool
    var tmp: Value
    var skipped: nat

    constructor (page: Page, keyOnly: bool, lower: Option<Bound>)
      requires IsPage(page)
      ensures Valid() && this.page == page && this.keyOnly == keyOnly && this.lower == lower
    {
      this.page, this.keyOnly, this.lower := page, keyOnly, lower;
      recno, value, cipSaved, cacheable, tmp, skipped := 0, "", None, false, "", 0;
    }

    /** A cached value is what decoding its cell and reading it would give, for every record of the
        cell whose updates the snapshot does not see. */
    ghost predicate Valid()
      reads this
    {
      IsPage(page) && (cacheable && cipSaved.Some? ==> Uniform(page, cipSaved.value, tmp))
    }

    /** The record the cursor is on, as a scan returns it. */
    function Item(): Descent
      reads this
    {
      AtRecno(recno, if keyOnly then None else Some(value))
    }

    /** What every visit to a record promises: return it, stop there, or (null) move below it. */
    ghost predicate Visited(r: Option<Outcome>, busy: set<nat>, was: nat)
      reads this
    {
      && (r.None? ==> recno < was && Passed(page, keyOnly, busy, recno, was))
      && (r.None? ==> MovedOn(page, lower, was, recno) && !BelowBound(lower, was))
      && (r.Some? ==> recno == was)
      && (r == Some(Got) ==> ScanDown(page, keyOnly, lower, busy, recno) == Item())
      && (r.Some? && r.value.NotFound? ==> r.value.outOfBounds && BelowBound(lower, recno))
      && (r == Some(PrepareConflict) ==> ScanDown(page, keyOnly, lower, busy, recno) == Held(recno) && !keyOnly)
    }

    /** The record lies in a deleted cell: move below all of the run, unless an insert is nearer. */
    method JumpOver(slot: nat, start: Option<nat>, busy: set<nat>)
      requires Valid() && In(page, slot, recno) && slot < |page.inserts| && page.cells[slot].deleted
      requires LookIn(page, slot, keyOnly, busy, recno) == Nothing && !BelowBound(lower, recno)
      requires var m := Match(page.inserts[slot], recno); m.Some? ==> m.value.read.Invalid?
      requires page.cells[slot].rle > 1 ==> start == Some(Start(page, slot))
      modifies this`recno, this`skipped
      ensures recno < old(recno) && Passed(page, keyOnly, busy, recno, old(recno)) && MovedOn(page, lower, old(recno), recno)
    {
      hide IsPage, Look, LookIn, Start, LessThan, SortedInserts, MovedOn, BelowBound;
      JumpsDown(page, slot, keyOnly, busy, recno);
      if page.cells[slot].rle > 1 {
        JumpMoves(page, lower, slot, recno);
        var smaller := LessThan(page.inserts[slot], recno);
        recno := start.value - 1;
        if smaller.Some? && smaller.value > recno {
          recno := smaller.value;
        }
        recno := recno + 1;
      } else {
        PageFacts(page, slot);
        StepsDown(page, slot, keyOnly, busy, recno);
        StepMoves(page, lower, slot, recno);
      }
      skipped := skipped + 1;
      recno := recno - 1;
    }

    /** The record has no visible update: decode its cell, or reuse the value cached for the cell. */
    method VisitCell(slot: nat, start: Option<nat>, busy: set<nat>) returns (r: Option<Outcome>)
      requires Valid() && In(page, slot, recno) && slot < |page.inserts| && !BelowBound(lower, recno)
      requires var m := Match(page.inserts[slot], recno); m.Some? ==> !keyOnly && m.value.read.Invalid? && recno !in busy
      requires page.cells[slot].rle > 1 ==> start == Some(Start(page, slot))
      modifies this
      ensures Valid() && Visited(r, busy, old(recno))
    {
      hide IsPage, ScanDown, Look, Start, OnDisk, LessThan, SortedInserts, MovedOn;
      PageFacts(page, slot);
      ScanHere(page, slot, keyOnly, lower, busy, recno);
      var cell := page.cells[slot];
      if cipSaved == Some(slot) && cacheable {
        value := tmp;
        return Some(Got);
      }
      if cell.deleted {
        JumpOver(slot, start, busy);
        return None;
      }
      if keyOnly {
        return Some(Got);
      }
      if recno in busy && !cell.visibleAll {
        return Some(PrepareConflict);
      }
      var read := OnDisk(page, slot, recno);
      if !read.Found? {
        StepMoves(page, lower, slot, recno);
        skipped := skipped + 1;
        recno := recno - 1;
        return None;
      }
      value := read.value;
      cipSaved := Some(slot);
      if cell.rle > 1 && cell.visibleAll {
        VisibleAllIsUniform(page, slot, recno, value);
        tmp, cacheable := value, true;
      } else {
        cacheable := false;
      }
      return Some(Got);
    }

    method Visit(busy: set<nat>) returns (r: Option<Outcome>)
      requires Valid() && page.refRecno <= recno < Start(page, |page.cells|)
      modifies this
      ensures Valid() && Visited(r, busy, old(recno))
    {
      hide IsPage, ScanDown, Look, Start, Uniform, OnDisk, MovedOn;
      if BelowBound(lower, recno) {
        return Some(NotFound(true));
      }
      var found, start := Search(page, recno);
      var slot := found.value;
      PageFacts(page, slot);
      ScanHere(page, slot, keyOnly, lower, busy, recno);
      var m, read := Match(page.inserts[slot], recno), Invalid;
      if m.Some? {
        if keyOnly {
          return Some(Got);
        }
        if recno in busy {
          return Some(PrepareConflict);
        }
        read := m.value.read;
      }
      if read != Invalid {
        if read.Tombstone? {
          StepMoves(page, lower, slot, recno);
          skipped := skipped + 1;
          recno := recno - 1;
          return None;
        }
        value := read.value;
        return Some(Got);
      }
      r := VisitCell(slot, start, busy);
    }

    lemma ValidPage()
      requires Valid()
      ensures |page.repeats| > 0 ==> page.repeats[|page.repeats| - 1].indx < |page.cells|
      ensures page.refRecno >= 1
    {
      LastRecnoIsLast(page);
      PageFacts(page, 0);
    }

    lemma ValidListed()
      requires Valid()
      ensures |page.repeats| > 0 ==> page.repeats[|page.repeats| - 1].indx < |page.cells|
      ensures Listed(page, keyOnly, lower, ListDown(page, keyOnly, lower, LastRecno(page)))
    {
      ListDownListed(page, keyOnly, lower);
    }

    /** The outcome is that of looking at every record number from `from` down. */
    ghost predicate Moved(r: Outcome, from: nat, busy: set<nat>)
      reads this
    {
      var s := ScanDown(page, keyOnly, lower, busy, from);
      && (r.Got? ==> s == Item())
      && (r.NotFound? ==> Over(s))
      && (r.NotFound? ==> (r.outOfBounds <==> s == BeyondBound && !LeapsOut(page, lower, from)))
      && (r.PrepareConflict? ==> s == Held(recno) && !keyOnly)
      && (!r.NotFound? ==> recno <= from && page.refRecno <= recno < Start(page, |page.cells|))
    }

    /** In the page's own terms: the record returned is one to return, the conflict is one, and nothing
        above either is one or the other. */
    ghost predicate Meets(r: Outcome, from: nat, busy: set<nat>)
      reads this
    {
      && Nothings(page, keyOnly, lower, busy, if r.NotFound? then -1 else recno, from)
      && (r.Got? ==> exists s: nat :: In(page, s, recno) && ToList(page, keyOnly, lower, s, recno, Item().value)
                                      && (keyOnly || !Conflicts(page, s, recno, busy)))
      && (r.PrepareConflict? ==> exists s: nat :: In(page, s, recno) && Inside(lower, recno) && !keyOnly && Conflicts(page, s, recno, busy))
    }

    lemma MovedMeets(r: Outcome, from: nat, busy: set<nat>)
      requires Valid() && Moved(r, from, busy)
      ensures Meets(r, from, busy)
    {
      hide IsPage, ScanDown, ToList, Conflicts, Start, Nothings, LeapsOut;
      PageFacts(page, 0);
      ScanMeets(page, keyOnly, lower, busy, from);
      if !r.NotFound? {
        SlotIn(page, |page.cells|, recno);
      }
    }

    /** How the cursor came down from `from`. */
    ghost predicate Come(from: nat)
      reads this`recno
    {
      if recno >= page.refRecno then NoLeap(page, lower, recno, from)
      else from < page.refRecno || LeapsOut(page, lower, from) || !BelowBound(lower, page.refRecno)
    }

    lemma ComeStart()
      ensures Come(recno)
    {
    }

    lemma NoLeapBelow(from: nat)
      requires recno >= page.refRecno && Come(from)
      ensures BelowBound(lower, recno) ==> !LeapsOut(page, lower, from)
    {
    }

    lemma StillComes(from: nat, was: nat)
      requires page.refRecno <= was <= from && NoLeap(page, lower, was, from) && !BelowBound(lower, was)
      requires recno < was && MovedOn(page, lower, was, recno)
      ensures Come(from)
    {
    }

    /** Visit records from the current one down, until a visit decides or the page is left. */
    method Descend(busy: set<nat>) returns (r: Outcome)
      requires Valid() && recno < Start(page, |page.cells|)
      modifies this
      ensures Valid() && Moved(r, old(recno), busy)
    {
      hide IsPage, Look, Start, Uniform, MovedOn, NoLeap, LeapsOut;
      ghost var from := recno;
      PageFacts(page, 0);
      ComeStart();
      while true
        invariant Valid() && recno < Start(page, |page.cells|) && Passed(page, keyOnly, busy, recno, from)
        invariant Come(from)
        decreases recno
      {
        Skip(page, keyOnly, lower, busy, from, recno);
        if recno < page.refRecno {
          BeyondMeansBelow(page, keyOnly, lower, busy, from);
          return NotFound(false);
        }
        ghost var was := recno;
        var visited := Visit(busy);
        if visited.Some? {
          NoLeapBelow(from);
          return visited.value;
        }
        StillComes(from, was);
      }
    }

    /** Move to the previous record.  A restart ignores `newPage`: it reads the record the cursor is
        on, if the page has it. */
    method VarPrev(newPage: bool, restart: bool, busy: set<nat>) returns (r: Outcome)
      requires Valid()
      requires newPage || restart || 1 <= recno <= Start(page, |page.cells|)
      requires restart ==> page.refRecno <= recno
      modifies this
      ensures Valid()
      ensures restart && old(recno) >= Start(page, |page.cells|) ==> r == NotFound(BelowBound(lower, old(recno))) && recno == old(recno)
      ensures !restart || old(recno) < Start(page, |page.cells|) ==> Moved(r, Origin(page, newPage, restart, old(recno)), busy)
      ensures !restart || old(recno) < Start(page, |page.cells|) ==> Meets(r, Origin(page, newPage, restart, old(recno)), busy)
    {
      hide IsPage, Look, Start, Uniform, Leaps, LeapsOut, ScanDown, VarCursor.Meets;
      LastRecnoIsLast(page);
      ghost var from := Origin(page, newPage, restart, recno);
      PageFacts(page, 0);
      skipped := 0;
      if restart {
        if recno >= Start(page, |page.cells|) {
          if BelowBound(lower, recno) {
            return NotFound(true);
          }
          var found, _ := Search(page, recno);
          return NotFound(false);
        }
      } else if newPage {
        recno := LastRecno(page);
        if recno == 0 {
          ScanStep(page, keyOnly, lower, busy, 0);
          MovedMeets(NotFound(false), from, busy);
          return NotFound(false);
        }
        cipSaved, cacheable := None, false;
      } else {
        recno := recno - 1;
      }
      r := Descend(busy);
      MovedMeets(r, from, busy);
    }

    /** Scan the page from its end, calling again after every prepare conflict.  Whatever records meet
        prepared updates in the first `|rounds|` calls, the records returned are the same. */
    method ListPage(rounds: seq<set<nat>>) returns (out: seq<Descent>)
      requires Valid()
      modifies this
      ensures |page.repeats| > 0 ==> page.repeats[|page.repeats| - 1].indx < |page.cells|
      ensures out == ListDown(page, keyOnly, lower, LastRecno(page))
      ensures Listed(page, keyOnly, lower, out)
    {
      hide IsPage, Start, ScanDown, ListDown, LastRecno, In, BelowBound, Listed, Meets, VarCursor.Valid, VarCursor.Moved;
      ValidPage();
      ValidListed();
      var round := 0;
      var r := VarPrev(true, false, if rounds == [] then {} else rounds[0]);
      ghost var all := ListDown(page, keyOnly, lower, LastRecno(page));
      ghost var rest := Rest(r);
      MovedRest(r, LastRecno(page), if rounds == [] then {} else rounds[0]);
      out := if r.Got? then [Item()] else [];
      while !r.NotFound?
        invariant Valid() && page.refRecno >= 1 && round <= |rounds|
        invariant page.refRecno <= recno < Start(page, |page.cells|) || r.NotFound?
        invariant rest == Rest(r) && out + rest == all
        invariant r.PrepareConflict? ==> round < |rounds|
        decreases !r.NotFound?, |rounds| - round, recno + if r.Got? then 1 else 0
      {
        var restart := r.PrepareConflict?;
        if restart {
          round := round + 1;
        }
        ghost var from := Origin(page, false, restart, recno);
        r := VarPrev(false, restart, if round < |rounds| then rounds[round] else {});
        MovedRest(r, from, if round < |rounds| then rounds[round] else {});
        rest := Rest(r);
        Assoc(out, if r.Got? then [Item()] else [], rest);
        out := out + if r.Got? then [Item()] else [];
      }
    }

    /** What is left to return after the call that ended with `r`. */
    ghost function Rest(r: Outcome): seq<Descent>
      reads this
    {
      if r.NotFound? then []
      else if r.PrepareConflict? then ListDown(page, keyOnly, lower, recno)
      else if recno == 0 then [] else ListDown(page, keyOnly, lower, recno - 1)
    }

    lemma MovedRest(r: Outcome, from: nat, busy: set<nat>)
      requires Moved(r, from, busy)
      ensures (if r.Got? then [Item()] else []) + Rest(r) == ListDown(page, keyOnly, lower, from)
      ensures !r.NotFound? ==> recno <= from && page.refRecno <= recno < Start(page, |page.cells|)
      ensures r.PrepareConflict? ==> busy != {} && !keyOnly
    {
      hide ScanDown, ListDown;
      ListDownAfter(page, keyOnly, lower, busy, from);
      NeverHeld(page, keyOnly, lower, from);
    }
  }

  lemma Assoc(a: seq<Descent>, b: seq<Descent>, c: seq<Descent>)
    ensures (a + b) + c == a + (b + c)
    ensures [] + a == a
  {
  }

  function Origin(page: Page, newPage: bool, restart: bool, recno: nat): nat
    requires newPage || restart || recno >= 1
    requires newPage ==> |page.repeats| > 0 ==> page.repeats[|page.repeats| - 1].indx < |page.cells|
  {
    if restart then recno else if newPage then LastRecno(page) else recno - 1
  }

  // ---------------------------------------------------------------- whole pages

  /** What a scan returns from `recno` down when no update is prepared. */
  function ListDown(page: Page, keyOnly: bool, lower: Option<Bound>, recno: nat): seq<Descent> {
    var s := ScanDown(page, keyOnly, lower, {}, recno);
    if s.AtRecno? then [s] + ListDown(page, keyOnly, lower, s.recno - 1) else []
  }

  lemma NotPrepared(page: Page, keyOnly: bool, busy: set<nat>, recno: nat)
    ensures Look(page, keyOnly, {}, recno) != Prepared
    ensures Look(page, keyOnly, busy, recno) != Prepared ==> Look(page, keyOnly, busy, recno) == Look(page, keyOnly, {}, recno)
  {
    hide SlotOf, OnDisk, Match;
  }

  lemma {:induction false} NeverHeld(page: Page, keyOnly: bool, lower: Option<Bound>, recno: nat)
    ensures !ScanDown(page, keyOnly, lower, {}, recno).Held?
  {
    hide Look;
    if recno > 0 {
      NotPrepared(page, keyOnly, {}, recno);
      NeverHeld(page, keyOnly, lower, recno - 1);
    }
  }

  /** A scan met by prepared updates has skipped nothing. */
  lemma {:induction false} ListDownAfter(page: Page, keyOnly: bool, lower: Option<Bound>, busy: set<nat>, recno: nat)
    ensures var s := ScanDown(page, keyOnly, lower, busy, recno);
      ListDown(page, keyOnly, lower, recno) ==
        if s.AtRecno? then [s] + ListDown(page, keyOnly, lower, s.recno - 1)
        else if s.Held? then ListDown(page, keyOnly, lower, s.recno) else []
  {
    hide Look, ScanDown;
    ScanStep(page, keyOnly, lower, busy, recno);
    ScanStep(page, keyOnly, lower, {}, recno);
    if recno > 0 {
      NotPrepared(page, keyOnly, busy, recno);
      ListDownAfter(page, keyOnly, lower, busy, recno - 1);
      SameList(page, keyOnly, lower, recno, recno - 1);
    }
  }

  /** One step of the simple form. */
  lemma ScanStep(page: Page, keyOnly: bool, lower: Option<Bound>, busy: set<nat>, recno: nat)
    ensures ScanDown(page, keyOnly, lower, busy, recno) ==
      if recno < page.refRecno || recno == 0 then PageEnd
      else if BelowBound(lower, recno) then BeyondBound
      else match Look(page, keyOnly, busy, recno)
        case Shows(v) => AtRecno(recno, v)
        case Prepared => Held(recno)
        case Nothing => ScanDown(page, keyOnly, lower, busy, recno - 1)
  {
  }

  lemma SameList(page: Page, keyOnly: bool, lower: Option<Bound>, a: nat, b: nat)
    ensures ScanDown(page, keyOnly, lower, {}, a) == ScanDown(page, keyOnly, lower, {}, b) ==>
      ListDown(page, keyOnly, lower, a) == ListDown(page, keyOnly, lower, b)
  {
    hide ScanDown;
  }

  /** The listing holds every in-bounds record there is, with its value, each once and in descending
      order. */
  lemma {:induction false} ListDownIsEverything(page: Page, keyOnly: bool, lower: Option<Bound>, recno: nat, k: nat, v: Option<Value>)
    requires page.refRecno >= 1
    ensures AtRecno(k, v) in ListDown(page, keyOnly, lower, recno)
      <==> page.refRecno <= k <= recno && !BelowBound(lower, k) && Look(page, keyOnly, {}, k) == Shows(v)
    ensures Falling(ListDown(page, keyOnly, lower, recno), recno)
    decreases recno
  {
    hide Look, ScanDown, ListDown, Falling;
    if recno < page.refRecno || BelowBound(lower, recno) {
      NothingBelow(page, keyOnly, lower, recno);
      FallingCons(PageEnd, [], recno);
    } else {
      ListStep(page, keyOnly, lower, recno);
      ListDownIsEverything(page, keyOnly, lower, recno - 1, k, v);
      if Look(page, keyOnly, {}, recno).Shows? {
        FallingCons(AtRecno(recno, Look(page, keyOnly, {}, recno).value), ListDown(page, keyOnly, lower, recno - 1), recno);
      } else {
        FallingCons(PageEnd, ListDown(page, keyOnly, lower, recno - 1), recno);
        assert [] + ListDown(page, keyOnly, lower, recno - 1) == ListDown(page, keyOnly, lower, recno - 1);
      }
    }
  }

  lemma ListStep(page: Page, keyOnly: bool, lower: Option<Bound>, recno: nat)
    requires recno >= page.refRecno >= 1 && !BelowBound(lower, recno)
    ensures var l := Look(page, keyOnly, {}, recno);
      ListDown(page, keyOnly, lower, recno) ==
        (if l.Shows? then [AtRecno(recno, l.value)] else []) + ListDown(page, keyOnly, lower, recno - 1)
  {
    hide Look, ScanDown;
    NotPrepared(page, keyOnly, {}, recno);
    ScanStep(page, keyOnly, lower, {}, recno);
    SameList(page, keyOnly, lower, recno, recno - 1);
  }

  lemma FallingCons(x: Descent, s: seq<Descent>, top: nat)
    requires s == [] || (top > 0 && Falling(s, top - 1))
    ensures Falling(s, top) && (x.AtRecno? && x.recno == top ==> Falling([x] + s, top))
  {
  }

  lemma NothingBelow(page: Page, keyOnly: bool, lower: Option<Bound>, recno: nat)
    requires recno < page.refRecno || BelowBound(lower, recno)
    ensures ListDown(page, keyOnly, lower, recno) == []
  {
    hide Look;
    NoneBelow(page, keyOnly, lower, {}, recno);
  }

  ghost predicate Falling(s: seq<Descent>, top: nat) {
    && (forall i :: 0 <= i < |s| ==> s[i].AtRecno? && s[i].recno <= top)
    && (forall i, j :: 0 <= i < j < |s| ==> s[i].AtRecno? && s[j].AtRecno? && s[i].recno > s[j].recno)
  }
}
