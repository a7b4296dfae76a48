/** A variable-length column-store leaf as the cursor walks it: first the records appended behind the
    page, then the page's own, with one restart flag for both. */
module ColumnLeaf {
  import opened Options
  import opened Records
  import opened ColumnPage
  import opened ColumnScan

  class LeafCursor {
    const col: VarCursor
    const append: seq<Record>
    var appending: bool
    /** Index of the appended record the cursor is on. */
    var ins: Option<nat>

    constructor (page: Page, append: seq<Record>, keyOnly: bool, lower: Option<Bound>)
      requires IsPage(page) && IsAppend(page, append)
      ensures Valid() && fresh(col) && !appending && this.append == append
      ensures col.page == page && col.keyOnly == keyOnly && col.lower == lower
    {
      col := new VarCursor(page, keyOnly, lower);
      this.append, appending, ins := append, false, None;
    }

    ghost predicate Valid()
      reads this, col
    {
      && col.Valid() && IsAppend(col.page, append)
      && (ins.Some? ==> ins.value < |append|)
      && (appending ==> OnAppended())
    }

    ghost predicate OnAppended()
      reads this, col
    {
      ins.Some? && ins.value < |append| && col.recno == append[ins.value].key
    }

    /** Positions of the append list still to be visited by a call. */
    ghost function From(newPage: bool, restart: bool): nat
      requires restart || !newPage ==> ins.Some?
      reads this
    {
      if restart then ins.value + 1 else if newPage then |append| else ins.value
    }

    /** The outcome is what the scan `s` of the append list says, and the cursor stands where it says. */
    ghost predicate Appended(r: Outcome, s: Scan)
      reads this, col
    {
      && (r.NotFound? ==> s == if r.outOfBounds then OutOfBounds else End)
      && (!r.NotFound? ==> OnAppended())
      && (r.Got? ==> s == At(ins.value) && col.Item() == ItemOf(append[ins.value], col.keyOnly))
      && (r.PrepareConflict? ==> s == Blocked(ins.value) && !col.keyOnly)
    }

    /** Read the appended record the cursor is on; null says to move on. */
    method ReadAppended(busy: set<nat>) returns (r: Option<Outcome>)
      requires col.Valid() && ins.Some? && ins.value < |append| && OnAppended() && !col.keyOnly
      modifies col`value
      ensures col.Valid()
      ensures var s := ScanBack(append, false, col.lower, busy, ins.value + 1);
        if r.Some? then Appended(r.value, s) else s == ScanBack(append, false, col.lower, busy, ins.value)
    {
      hide ScanBack, Uniform, ColumnPage.IsPage, BelowBound;
      OneStep(append, false, col.lower, busy, ins.value + 1);
      var rec := append[ins.value];
      if BelowBound(col.lower, rec.key) {
        return Some(NotFound(true));
      }
      if rec.key in busy {
        return Some(PrepareConflict);
      }
      if rec.read.Found? {
        col.value := rec.read.value;
        return Some(Got);
      }
      return None;
    }

    /** Move back within the append list. */
    method AppendPrev(newPage: bool, restart: bool, busy: set<nat>) returns (r: Outcome)
      requires col.Valid() && IsAppend(col.page, append) && (restart || !newPage ==> OnAppended()) && !(restart && col.keyOnly)
      modifies this`ins, col`recno, col`value
      ensures col.Valid() && (ins.Some? ==> ins.value < |append|)
      ensures old(From(newPage, restart)) <= |append|
      ensures Appended(r, ScanBack(append, col.keyOnly, col.lower, busy, old(From(newPage, restart))))
      ensures ComesTo(ScanBack(append, col.keyOnly, col.lower, busy, old(From(newPage, restart))), append, col.keyOnly, col.lower, busy,
                      old(From(newPage, restart)))
      ensures restart ==> col.recno >= Start(col.page, |col.page.cells|)
    {
      hide ScanBack, SortedKeys, Start, Uniform, ColumnPage.IsPage, BelowBound, IsAppend, ComesTo;
      ghost var from: nat := From(newPage, restart);
      if from <= |append| {
        ScanComesTo(append, col.keyOnly, col.lower, busy, from);
      }
      var move, resume := !restart && !newPage, restart;
      if !restart && newPage {
        ins := if append == [] then None else Some(|append| - 1);
      }
      if ins.Some? {
        Behind(col.page, append, ins.value);
      }
      while true
        invariant (resume ==> restart) && (restart ==> col.recno >= Start(col.page, |col.page.cells|))
        invariant col.Valid() && (ins.Some? ==> ins.value < |append|) && (resume ==> ins.Some? && !move) && (move ==> ins.Some?)
        invariant resume || move ==> OnAppended()
        invariant Todo(move) <= from <= |append|
        invariant ScanBack(append, col.keyOnly, col.lower, busy, from) == ScanBack(append, col.keyOnly, col.lower, busy, Todo(move))
        decreases Todo(move)
      {
        if move {
          ins := if ins.value == 0 then None else Some(ins.value - 1);
        }
        if !resume {
          if ins.None? {
            EndOfScan(append, col.keyOnly, col.lower, busy);
            return NotFound(false);
          }
          Behind(col.page, append, ins.value);
          col.recno := append[ins.value].key;
          if col.keyOnly {
            OneStep(append, true, col.lower, busy, ins.value + 1);
            return Got;
          }
        }
        resume, move := false, true;
        var read := ReadAppended(busy);
        if read.Some? {
          return read.value;
        }
      }
    }

    ghost function Todo(move: bool): nat
      reads this
    {
      if ins.None? then 0 else if move then ins.value else ins.value + 1
    }

    /** One pass over this leaf by the tree cursor.  `lost` tells that a restart walked off the append
        list: the restart flag is still set when the page's own records are tried, so they are not. */
    method PagePrev(newPage: bool, restart: bool, busy: set<nat>) returns (r: Outcome, ghost lost: bool)
      requires Valid() && !(newPage && restart) && !(restart && col.keyOnly)
      requires appending ==> !newPage
      requires !newPage && !appending ==> col.page.refRecno <= col.recno < Start(col.page, |col.page.cells|)
      modifies this, col
      ensures Valid()
      ensures var appended := if newPage then append != [] else old(appending);
        var from := if newPage then |append| else if old(appending) then old(From(newPage, restart)) else 0;
        from <= |append| &&
        var s := ScanBack(append, col.keyOnly, col.lower, busy, from);
        && (appended ==> (appending <==> s.At? || s.Blocked?))
        && (appending ==> appended && !r.NotFound? && Appended(r, s))
        && (!appended && !newPage ==> col.Moved(r, Origin(col.page, false, restart, old(col.recno)), busy))
        && (!appending && (appended || newPage) && !lost ==> FromPage(r, busy))
        && (lost <==> appended && restart && !(s.At? || s.Blocked?))
        && (lost ==> r.NotFound?)
    {
      hide ScanBack, SortedKeys, Start, Uniform, IsPage, BelowBound;
      PageFacts(col.page, 0);
      col.ValidPage();
      lost := false;
      var onPage, beyond := newPage, false;
      if newPage && append != [] {
        appending := true;
      }
      if appending {
        r := AppendPrev(newPage, restart, busy);
        if !r.NotFound? {
          return;
        }
        appending, onPage, beyond := false, true, r.outOfBounds;
        lost := restart;
      }
      r := col.VarPrev(onPage, restart, busy);
      if r.NotFound? {
        r := NotFound(beyond || r.outOfBounds);
      }
    }

    /** The outcome is that of scanning the page's own records from the last one. */
    ghost predicate FromPage(r: Outcome, busy: set<nat>)
      reads this, col
    {
      && (|col.page.repeats| > 0 ==> col.page.repeats[|col.page.repeats| - 1].indx < |col.page.cells|)
      && (if r.NotFound? then Over(ScanDown(col.page, col.keyOnly, col.lower, busy, LastRecno(col.page)))
          else col.Moved(r, LastRecno(col.page), busy))
    }

    /** The page's own records, and all records of the leaf, as a scan should return them. */
    ghost function Own(): seq<Descent>
      requires IsPage(col.page)
    {
      LastRecnoIsLast(col.page);
      ListDown(col.page, col.keyOnly, col.lower, LastRecno(col.page))
    }

    ghost function Whole(): seq<Descent>
      requires IsPage(col.page)
    {
      AppendList(|append|) + Own()
    }

    /** What a scan returns of the append list from a position back. */
    ghost function AppendList(from: nat): seq<Descent>
      requires from <= |append|
    {
      Items(Listing(append, col.keyOnly, col.lower, from), col.keyOnly)
    }

    /** What is left to return after the call that ended with `r`. */
    ghost function Rest(r: Outcome): seq<Descent>
      requires Valid()
      reads this, col
    {
      if r.NotFound? then []
      else if appending then AppendList(if r.Got? then ins.value else ins.value + 1) + Own()
      else col.Rest(r)
    }

    ghost function Returned(r: Outcome): seq<Descent>
      reads this, col
    {
      if r.Got? then [col.Item()] else []
    }

    /** The cursor stands where the call that ended with `r` left it. */
    ghost predicate Stands(r: Outcome)
      requires Valid()
      reads this, col
    {
      && (r.PrepareConflict? ==> !col.keyOnly)
      && (r.NotFound? ==> !appending)
      && (!r.NotFound? && !appending ==> col.page.refRecno <= col.recno < Start(col.page, |col.page.cells|))
    }

    /** Whether a scan going on from a position of the append list, by a restart or not, ends up losing
        the page, when the calls after each conflict meet the prepared updates of the next round. */
    ghost predicate Loses(from: nat, restart: bool, rounds: seq<set<nat>>)
      requires from <= |append|
      decreases |rounds|, from
    {
      match ScanBack(append, col.keyOnly, col.lower, First(rounds), from)
      case At(i) => Loses(i, false, rounds)
      case Blocked(i) => rounds != [] && Loses(i + 1, true, rounds[1..])
      case _ => restart
    }

    /** The scan will lose the page after the call that ended with `r`. */
    ghost predicate WillLose(r: Outcome, rounds: seq<set<nat>>)
      requires appending && !r.NotFound? ==> OnAppended()
      reads this, col
    {
      appending && !r.NotFound? && Loses(if r.Got? then ins.value else ins.value + 1, r.PrepareConflict?, rounds)
    }

    /** Once the first appended record is one to return, a restart always finds it. */
    lemma {:induction false} Keeps(from: nat, restart: bool, rounds: seq<set<nat>>)
      requires from <= |append| && (restart ==> from > 0) && SortedKeys(append)
      requires col.keyOnly || append == [] || (append[0].read.Found? && !BelowBound(col.lower, append[0].key))
      requires col.keyOnly ==> !restart
      ensures !Loses(from, restart, rounds)
      decreases |rounds|, from
    {
      hide SortedKeys;
      if from > 0 {
        FirstShown(append, col.keyOnly, col.lower, First(rounds), from);
        match ScanBack(append, col.keyOnly, col.lower, First(rounds), from)
        case At(i) => Keeps(i, false, rounds);
        case Blocked(i) => if rounds != [] { Keeps(i + 1, true, rounds[1..]); }
        case _ => assert false;
      }
    }

    /** If it is not, one conflict on it is enough. */
    lemma {:induction false} LosesAtFirst(from: nat, k: nat)
      requires 0 < from <= |append| && SortedKeys(append) && !col.keyOnly
      requires append[0].key == k && !append[0].read.Found? && !BelowBound(col.lower, k)
      ensures Loses(from, false, [{k}])
      decreases from
    {
      FirstBlocks(append, col.lower, k, from);
      match ScanBack(append, false, col.lower, {k}, from)
      case At(i) => LosesAtFirst(i, k);
      case Blocked(i) =>
        assert [{k}][1..] == [];
        OneStep(append, false, col.lower, {}, 1);
        EndOfScan(append, false, col.lower, {});
        assert Loses(1, true, []);
    }

    lemma OwnInBounds()
      requires Valid() && Own() != [] && append != []
      ensures !BelowBound(col.lower, append[0].key)
    {
      hide ScanDown, IsPage, Start;
      PageFacts(col.page, 0);
      LastRecnoIsLast(col.page);
      var s := ScanDown(col.page, col.keyOnly, col.lower, {}, LastRecno(col.page));
      InBounds(col.page, col.keyOnly, col.lower, {}, LastRecno(col.page));
      Behind(col.page, append, 0);
    }

    /** A backward scan of the leaf is complete, whatever conflicts it meets, exactly when the page has
        nothing to return, or no updates are looked at, or the first appended record, if any, is one to
        return. */
    lemma CompleteExactly()
      requires Valid()
      ensures (forall rounds :: Own() == [] || !Loses(|append|, false, rounds))
        <==> Own() == [] || col.keyOnly || append == [] || append[0].read.Found?
    {
      hide IsPage, ScanDown, ListDown, Start, Loses, LeafCursor.Own, SortedKeys, BelowBound;
      if Own() != [] {
        if append != [] {
          OwnInBounds();
          Behind(col.page, append, 0);
        }
        if col.keyOnly || append == [] || append[0].read.Found? {
          forall rounds ensures !Loses(|append|, false, rounds) {
            Keeps(|append|, false, rounds);
          }
        } else {
          LosesSometimes(append[0].key);
        }
      }
    }

    lemma LosesSometimes(k: nat)
      requires append != [] && SortedKeys(append) && !col.keyOnly
      requires append[0].key == k && !append[0].read.Found? && !BelowBound(col.lower, k)
      ensures exists rounds :: Loses(|append|, false, rounds)
    {
      LosesAtFirst(|append|, k);
    }

    lemma AppendLeft(r: Outcome, from: nat, busy: set<nat>)
      requires Valid() && appending && from <= |append| && !r.NotFound?
      requires Appended(r, ScanBack(append, col.keyOnly, col.lower, busy, from))
      ensures Stands(r) && Returned(r) + Rest(r) == AppendList(from) + Own()
      ensures r.PrepareConflict? ==> append[ins.value].key in busy
    {
      hide ScanBack, Listing, Items, ListDown;
      ListingAfter(append, col.keyOnly, col.lower, busy, from);
      BlockedIsBusy(append, col.keyOnly, col.lower, busy, from);
      if r.Got? {
        ItemsHead(append[ins.value], Listing(append, col.keyOnly, col.lower, ins.value), col.keyOnly);
        Assoc([col.Item()], AppendList(ins.value), Own());
      } else {
        Assoc([], AppendList(from), Own());
      }
    }

    lemma NoneLeft(from: nat, busy: set<nat>)
      requires IsPage(col.page) && from <= |append| && !ScanBack(append, col.keyOnly, col.lower, busy, from).At?
      requires !ScanBack(append, col.keyOnly, col.lower, busy, from).Blocked?
      ensures AppendList(from) + Own() == Own()
    {
      hide ScanBack, Listing, ListDown;
      ListingAfter(append, col.keyOnly, col.lower, busy, from);
      assert AppendList(from) == [];
    }

    lemma PageLeft(r: Outcome, busy: set<nat>)
      requires Valid() && !appending && FromPage(r, busy)
      ensures Stands(r) && Returned(r) + Rest(r) == Own() && (r.PrepareConflict? ==> busy != {})
    {
      hide ScanDown, ListDown, IsPage;
      if r.NotFound? {
        ListDownAfter(col.page, col.keyOnly, col.lower, busy, LastRecno(col.page));
      } else {
        MovedLeft(r, LastRecno(col.page), busy);
      }
    }

    lemma MovedLeft(r: Outcome, from: nat, busy: set<nat>)
      requires Valid() && !appending && col.Moved(r, from, busy)
      ensures Stands(r) && Returned(r) + Rest(r) == ListDown(col.page, col.keyOnly, col.lower, from)
      ensures r.PrepareConflict? ==> busy != {}
    {
      hide ScanDown, ListDown, IsPage, VarCursor.Moved;
      col.MovedRest(r, from, busy);
    }

    lemma LosesNext(r: Outcome, from: nat, restart: bool, rounds: seq<set<nat>>, lost: bool)
      requires Valid() && from <= |append|
      requires var s := ScanBack(append, col.keyOnly, col.lower, First(rounds), from);
        && (appending <==> s.At? || s.Blocked?)
        && (appending ==> !r.NotFound? && Appended(r, s))
        && (lost <==> restart && !(s.At? || s.Blocked?))
      ensures Loses(from, restart, rounds) <==> lost || WillLose(r, Later(r, rounds))
    {
      hide ScanBack, IsPage, IsAppend, Start;
      BlockedIsBusy(append, col.keyOnly, col.lower, First(rounds), from);
    }

    /** One more call: it goes on with what was left, unless it loses the page. */
    method Advance(r: Outcome, busy: set<nat>, ghost rounds: seq<set<nat>>) returns (r': Outcome, ghost lost: bool)
      requires Valid() && Stands(r) && !r.NotFound? && busy == First(rounds)
      modifies this, col
      ensures Valid() && Stands(r')
      ensures !lost ==> Returned(r') + Rest(r') == old(Rest(r))
      ensures lost ==> r'.NotFound? && r.PrepareConflict? && old(appending) && old(Rest(r)) == Own()
      ensures r'.PrepareConflict? ==> busy != {}
      ensures appending ==> old(appending)
      ensures old(WillLose(r, rounds)) <==> lost || WillLose(r', Later(r', rounds))
    {
      hide ScanBack, Listing, Items, ScanDown, ListDown, IsPage, Start, IsAppend, VarCursor.Moved,
        LeafCursor.Appended, LeafCursor.FromPage, LeafCursor.AppendList, LeafCursor.Loses;
      var restart := r.PrepareConflict?;
      ghost var was, start: nat := appending, col.recno;
      ghost var from: nat := if !appending then 0 else if restart then ins.value + 1 else ins.value;
      ValidRecno();
      r', lost := PagePrev(false, restart, busy);
      if was {
        LosesNext(r', from, restart, rounds, lost);
      }
      if appending {
        AppendLeft(r', from, busy);
      } else if was {
        NoneLeft(from, busy);
        if !lost {
          PageLeft(r', busy);
        }
      } else {
        MovedLeft(r', Origin(col.page, false, restart, start), busy);
      }
    }

    lemma ValidRecno()
      requires Valid()
      ensures col.page.refRecno >= 1
    {
      col.ValidPage();
    }

    method Begin(busy: set<nat>, ghost rounds: seq<set<nat>>) returns (r: Outcome, ghost lost: bool)
      requires Valid() && !appending && busy == First(rounds)
      modifies this, col
      ensures Valid() && Stands(r) && Returned(r) + Rest(r) == Whole() && !lost
      ensures r.PrepareConflict? ==> busy != {}
      ensures Loses(|append|, false, rounds) <==> WillLose(r, Later(r, rounds))
    {
      hide ScanBack, Listing, Items, ScanDown, ListDown, IsPage, Start, IsAppend, VarCursor.Moved,
        LeafCursor.Appended, LeafCursor.FromPage, LeafCursor.Loses;
      r, lost := PagePrev(true, false, busy);
      if append == [] {
        EndOfScan(append, col.keyOnly, col.lower, busy);
      }
      LosesNext(r, |append|, false, rounds, false);
      if appending {
        AppendLeft(r, |append|, busy);
      } else {
        NoneLeft(|append|, busy);
        PageLeft(r, busy);
      }
    }

    /** Scan the leaf, calling again after every prepare conflict.  Exactly when a restart walks off
        the append list, and the page has records of its own to return, are they left out. */
    method ListLeaf(rounds: seq<set<nat>>) returns (out: seq<Descent>)
      requires Valid() && !appending
      modifies this, col
      ensures Valid()
      ensures out + (if Loses(|append|, false, rounds) then Own() else []) == Whole()
      ensures out == Whole() <==> Own() == [] || !Loses(|append|, false, rounds)
      ensures Loses(|append|, false, rounds) ==> Blocks(rounds)
    {
      hide ScanBack, Listing, ScanDown, ListDown, IsPage, Start, IsAppend, VarCursor.Moved,
        LeafCursor.Own, LeafCursor.Whole, LeafCursor.Stands, LeafCursor.Loses;
      ghost var whole := Whole();
      var left := rounds;
      var r;
      ghost var lost;
      r, lost := Begin(First(left), left);
      out := if r.Got? then [col.Item()] else [];
      ghost var rest := Rest(r);
      while !r.NotFound?
        invariant Valid() && Stands(r) && |left| <= |rounds|
        invariant rest == if lost then Own() else Rest(r)
        invariant out + rest == whole
        invariant lost ==> r.NotFound?
        invariant r.PrepareConflict? ==> left != []
        invariant Loses(|append|, false, rounds) <==> lost || WillLose(r, Later(r, left))
        decreases !r.NotFound?, |left|, |rest| + if r.Got? then 1 else 0
      {
        left := Later(r, left);
        ghost var was := rest;
        r, lost := Advance(r, First(left), left);
        rest := if lost then Own() else Rest(r);
        Assoc(out, Returned(r), rest);
        out := out + if r.Got? then [col.Item()] else [];
      }
      Complete(out, if lost then Own() else []);
      LosesBlocked(|append|, false, rounds);
    }

    /** Some record of the append list meets a prepared update. */
    ghost predicate Blocks(rounds: seq<set<nat>>) {
      exists i, j :: 0 <= i < |rounds| && 0 <= j < |append| && append[j].key in rounds[i]
    }

    lemma {:induction false} LosesBlocked(from: nat, restart: bool, rounds: seq<set<nat>>)
      requires from <= |append|
      ensures Loses(from, restart, rounds) ==> restart || Blocks(rounds)
      decreases |rounds|, from
    {
      hide ScanBack;
      BlockedIsBusy(append, col.keyOnly, col.lower, First(rounds), from);
      match ScanBack(append, col.keyOnly, col.lower, First(rounds), from)
      case At(i) => LosesBlocked(i, false, rounds);
      case Blocked(i) => assert Blocks(rounds);
      case _ =>
    }
  }

  /** The prepared updates the next call meets, and the rounds left once a call ended with `r`. */
  function First(rounds: seq<set<nat>>): set<nat> {
    if rounds == [] then {} else rounds[0]
  }

  function Later(r: Outcome, rounds: seq<set<nat>>): seq<set<nat>> {
    if r.PrepareConflict? && rounds != [] then rounds[1..] else rounds
  }

  /** Where the first record is in bounds and to be returned, a scan finds it or something before. */
  lemma {:induction false} FirstShown(recs: seq<Record>, keyOnly: bool, lower: Option<Bound>, busy: set<int>, q: nat)
    requires 0 < q <= |recs| && SortedKeys(recs)
    requires keyOnly || (recs[0].read.Found? && !BelowBound(lower, recs[0].key))
    ensures ScanBack(recs, keyOnly, lower, busy, q).At? || ScanBack(recs, keyOnly, lower, busy, q).Blocked?
    ensures keyOnly ==> ScanBack(recs, keyOnly, lower, busy, q).At?
  {
    if q > 1 {
      FirstShown(recs, keyOnly, lower, busy, q - 1);
    }
  }

  /** Where it is in bounds but not to be returned, a prepared update on it alone stops the scan. */
  lemma {:induction false} FirstBlocks(recs: seq<Record>, lower: Option<Bound>, k: int, q: nat)
    requires 0 < q <= |recs| && SortedKeys(recs) && recs[0].key == k && !BelowBound(lower, k)
    ensures var s := ScanBack(recs, false, lower, {k}, q); (s.At? && s.index > 0) || s == Blocked(0)
  {
    if q > 1 {
      FirstBlocks(recs, lower, k, q - 1);
    }
  }

  lemma {:induction false} InBounds(page: Page, keyOnly: bool, lower: Option<Bound>, busy: set<nat>, recno: nat)
    ensures var s := ScanDown(page, keyOnly, lower, busy, recno); s.AtRecno? ==> !BelowBound(lower, s.recno)
    decreases recno
  {
    hide Look;
    if recno > 0 && recno >= page.refRecno && !BelowBound(lower, recno) && Look(page, keyOnly, busy, recno).Nothing? {
      InBounds(page, keyOnly, lower, busy, recno - 1);
    }
  }

  function ItemOf(rec: Record, keyOnly: bool): Descent {
    AtRecno(if rec.key < 0 then 0 else rec.key, if keyOnly || !rec.read.Found? then None else Some(rec.read.value))
  }

  function Items(recs: seq<Record>, keyOnly: bool): seq<Descent> {
    if recs == [] then [] else [ItemOf(recs[0], keyOnly)] + Items(recs[1..], keyOnly)
  }

  lemma ItemsHead(rec: Record, recs: seq<Record>, keyOnly: bool)
    ensures Items([rec] + recs, keyOnly) == [ItemOf(rec, keyOnly)] + Items(recs, keyOnly)
  {
    assert ([rec] + recs)[1..] == recs;
  }

  lemma {:induction false} BlockedIsBusy(recs: seq<Record>, keyOnly: bool, lower: Option<Bound>, busy: set<int>, q: nat)
    requires q <= |recs|
    ensures var s := ScanBack(recs, keyOnly, lower, busy, q); s.Blocked? ==> recs[s.index].key in busy
  {
    if q > 0 {
      BlockedIsBusy(recs, keyOnly, lower, busy, q - 1);
    }
  }

  lemma Complete(out: seq<Descent>, missing: seq<Descent>)
    ensures out == out + missing <==> missing == []
  {
    assert |out + missing| == |out| + |missing|;
  }

  /** Appended records come in order, behind the last record of the page. */
  ghost predicate IsAppend(page: Page, append: seq<Record>) {
    SortedKeys(append) && forall i :: 0 <= i < |append| ==> append[i].key >= Start(page, |page.cells|)
  }

  lemma Behind(page: Page, append: seq<Record>, i: nat)
    requires IsAppend(page, append) && i < |append|
    ensures append[i].key >= Start(page, |page.cells|)
  {
  }

  /** Record 1 is on the page; record 2 was appended by a prepared transaction that rolls back between
      the two calls.  The second call reports the end of the leaf, and record 1 is never returned. */
  method LostPage() returns (first: Outcome, second: Outcome, leaf: LeafCursor)
    ensures fresh(leaf) && first.PrepareConflict? && second.NotFound?
    ensures IsPage(leaf.col.page) && leaf.Own() == [AtRecno(1, Some("a"))]
  {
    hide IsPage, Start, ListDown, LastRecno, VarCursor.Moved, LeafCursor.FromPage;
    var page := Page(1, [Cell(false, 1, "a", false, true, true)], [], [[]], map[]);
    var append := [Record(2, Invalid)];
    OneRecord(page);
    leaf := new LeafCursor(page, append, false, None);
    ghost var lost;
    first, lost := leaf.PagePrev(true, false, {2});
    second, lost := leaf.PagePrev(false, true, {});
  }

  lemma OneRecord(page: Page)
    requires page == Page(1, [Cell(false, 1, "a", false, true, true)], [], [[]], map[])
    ensures IsPage(page) && Start(page, 1) == 2 && LastRecno(page) == 1
    ensures ListDown(page, false, None, 1) == [AtRecno(1, Some("a"))]
  {
    assert Start(page, 0) == 1 && Match(page.inserts[0], 1) == None;
    assert Look(page, false, {}, 1) == Shows(Some("a"));
    assert ScanDown(page, false, None, {}, 1) == AtRecno(1, Some("a"));
    assert ListDown(page, false, None, 0) == [];
  }
}
