/** A variable-length column-store page: run-length cells, their insert lists, and the search that
    finds the cell of a record. */
module ColumnPage {
  import opened Options
  import opened Records

  /** An entry of an insert list: what its update list yields to the reader's snapshot, and, when
      rollback-to-stable left a restored update there, what reading past the updates yields instead
      of the on-disk value. */
  datatype Insert = Insert(recno: nat, read: Read, unstable: Option<Read>)

  datatype Cell = Cell(deleted: bool, rle: nat, value: Value, stopVisible: bool, startVisible: bool, visibleAll: bool)

  datatype Repeat = Repeat(indx: nat, recno: nat, rle: nat)

  datatype Page = Page(refRecno: nat, cells: seq<Cell>, repeats: seq<Repeat>, inserts: seq<seq<Insert>>, history: map<nat, Value>)

  /** First record of slot `s`. */
  function Start(page: Page, s: nat): (r: nat)
    requires s <= |page.cells|
    ensures r >= page.refRecno
  {
    if s == 0 then page.refRecno else Start(page, s - 1) + page.cells[s - 1].rle
  }

  predicate In(page: Page, s: nat, recno: nat) {
    s < |page.cells| && Start(page, s) <= recno < Start(page, s) + page.cells[s].rle
  }

  ghost predicate SortedInserts(ins: seq<Insert>) {
    forall i, j :: 0 <= i < j < |ins| ==> ins[i].recno < ins[j].recno
  }

  /** The list of repeats names exactly the cells that cover more than one record, in order. */
  ghost predicate IsRepeats(page: Page) {
    && (forall k :: 0 <= k < |page.repeats| ==>
          && page.repeats[k].indx < |page.cells|
          && page.repeats[k].recno == Start(page, page.repeats[k].indx)
          && page.repeats[k].rle == page.cells[page.repeats[k].indx].rle > 1)
    && (forall j, k :: 0 <= j < k < |page.repeats| ==> page.repeats[j].indx < page.repeats[k].indx)
    && (forall s :: 0 <= s < |page.cells| && page.cells[s].rle > 1 ==> Repeats(page, s))
  }

  ghost predicate Repeats(page: Page, s: nat) {
    exists k :: 0 <= k < |page.repeats| && page.repeats[k].indx == s
  }

  /** Rollback-to-stable restores updates only over values that were not yet visible to everybody. */
  ghost predicate IsPage(page: Page) {
    && page.refRecno >= 1
    && |page.inserts| == |page.cells|
    && IsRepeats(page)
    && (forall s :: 0 <= s < |page.cells| ==> page.cells[s].rle >= 1 && SortedInserts(page.inserts[s]))
    && (forall s, i :: 0 <= s < |page.cells| && 0 <= i < |page.inserts[s]| ==>
          && In(page, s, page.inserts[s][i].recno)
          && (page.cells[s].visibleAll ==> page.inserts[s][i].unstable.None?))
    && (forall s :: 0 <= s < |page.cells| && page.cells[s].visibleAll ==> page.cells[s].startVisible)
  }

  lemma {:induction false} StartGrows(page: Page, a: nat, b: nat)
    requires a <= b <= |page.cells|
    ensures Start(page, a) <= Start(page, b)
    decreases b
  {
    if a < b {
      StartGrows(page, a, b - 1);
    }
  }

  /** A record lies in one cell only. */
  lemma OneSlot(page: Page, s: nat, t: nat, recno: nat)
    requires In(page, s, recno) && In(page, t, recno)
    ensures s == t
  {
    if s < t {
      StartGrows(page, s + 1, t);
    } else if t < s {
      StartGrows(page, t + 1, s);
    }
  }

  /** Cells that are no repeats advance the record number by one each. */
  lemma {:induction false} SinglesBetween(page: Page, a: nat, b: nat)
    requires a <= b <= |page.cells| && forall s :: a <= s < b ==> page.cells[s].rle == 1
    ensures Start(page, b) == Start(page, a) + (b - a)
    decreases b
  {
    if a < b {
      SinglesBetween(page, a, b - 1);
    }
  }

  /** Between two neighbouring repeats lie single cells only. */
  lemma NoRepeatBetween(page: Page, k: nat, s: nat)
    requires IsPage(page) && k <= |page.repeats| && s < |page.cells|
    requires k > 0 ==> page.repeats[k - 1].indx < s
    requires k < |page.repeats| ==> s < page.repeats[k].indx
    ensures page.cells[s].rle == 1
  {
    hide Start, In, SortedInserts;
    if page.cells[s].rle > 1 {
      assert Repeats(page, s);
      var j :| 0 <= j < |page.repeats| && page.repeats[j].indx == s;
    }
  }

  function LastRecno(page: Page): nat
    requires |page.repeats| > 0 ==> page.repeats[|page.repeats| - 1].indx < |page.cells|
  {
    if |page.repeats| == 0 then
      if |page.cells| == 0 || page.refRecno == 0 then 0 else page.refRecno + (|page.cells| - 1)
    else
      var repeat := page.repeats[|page.repeats| - 1];
      if repeat.recno + repeat.rle == 0 then 0
      else (repeat.recno + repeat.rle) - 1 + (|page.cells| - (repeat.indx + 1))
  }

  lemma RepeatFacts(page: Page, k: nat)
    requires IsPage(page) && k < |page.repeats|
    ensures var p := page.repeats[k];
      p.indx < |page.cells| && p.recno == Start(page, p.indx) && p.rle == page.cells[p.indx].rle > 1
      && Start(page, p.indx + 1) == p.recno + p.rle
    ensures k + 1 < |page.repeats| ==> page.repeats[k].indx < page.repeats[k + 1].indx < |page.cells|
  {
  }

  /** Slot after the `k` first repeats, and its first record, as the program reckons them. */
  function After(page: Page, k: nat): (nat, nat)
    requires k <= |page.repeats|
  {
    if k == 0 then (0, page.refRecno) else (page.repeats[k - 1].indx + 1, page.repeats[k - 1].recno + page.repeats[k - 1].rle)
  }

  /** From there to the next repeat, or to the end, slots and records advance together. */
  lemma SinglesAfter(page: Page, k: nat, s: nat)
    requires IsPage(page) && k <= |page.repeats|
    requires After(page, k).0 <= s <= (if k < |page.repeats| then page.repeats[k].indx else |page.cells|)
    requires s <= |page.cells|
    ensures Start(page, s) == After(page, k).1 + (s - After(page, k).0)
    ensures forall j :: After(page, k).0 <= j < s ==> page.cells[j].rle == 1
  {
    hide IsPage;
    if k > 0 {
      RepeatFacts(page, k - 1);
    }
    forall j | After(page, k).0 <= j < s ensures page.cells[j].rle == 1 {
      NoRepeatBetween(page, k, j);
    }
    SinglesBetween(page, After(page, k).0, s);
  }

  /** The last record computed from the last repeat alone is the last record of the last cell. */
  lemma LastRecnoIsLast(page: Page)
    requires IsPage(page)
    ensures |page.repeats| > 0 ==> page.repeats[|page.repeats| - 1].indx < |page.cells|
    ensures LastRecno(page) == if page.cells == [] then 0 else Start(page, |page.cells|) - 1
  {
    var n := |page.repeats|;
    if n > 0 {
      RepeatFacts(page, n - 1);
    }
    SinglesAfter(page, n, |page.cells|);
    Positive(page);
    hide IsPage, Start;
  }

  lemma Positive(page: Page)
    requires IsPage(page)
    ensures page.refRecno >= 1
  {
  }

  /** Find the slot of a record: binary search among the repeats, then a plain offset.  `start` is set
      only when the record lies in a repeat. */
  method Search(page: Page, recno: nat) returns (slot: Option<nat>, start: Option<nat>)
    requires IsPage(page) && recno >= page.refRecno
    ensures slot.None? <==> recno >= Start(page, |page.cells|)
    ensures slot.Some? ==> In(page, slot.value, recno)
    ensures slot.Some? && page.cells[slot.value].rle > 1 ==> start == Some(Start(page, slot.value))
  {
    hide IsPage, Start;
    var base, limit := 0, |page.repeats|;
    while limit != 0
      invariant 0 <= limit && 0 <= base && base + limit <= |page.repeats|
      invariant base > 0 ==> page.repeats[base - 1].recno + page.repeats[base - 1].rle <= recno
      invariant base + limit < |page.repeats| ==> recno < page.repeats[base + limit].recno
      decreases limit
    {
      var indx := base + limit / 2;
      var repeat := page.repeats[indx];
      if repeat.recno <= recno < repeat.recno + repeat.rle {
        RepeatFacts(page, indx);
        StartGrows(page, repeat.indx + 1, |page.cells|);
        return Some(repeat.indx), Some(repeat.recno);
      }
      if recno >= repeat.recno {
        base := indx + 1;
        limit := limit - 1;
      }
      limit := limit / 2;
    }
    Offset(page, base, recno);
    var startIndx := if base == 0 then 0 else page.repeats[base - 1].indx + 1;
    var startRecno := if base == 0 then page.refRecno else page.repeats[base - 1].recno + page.repeats[base - 1].rle;
    if recno >= startRecno && recno - startRecno >= |page.cells| - startIndx {
      return None, None;
    }
    slot, start := Some(startIndx + (recno - startRecno)), None;
  }

  /** Past the last repeat that ends at or before the record, the offset counts cells. */
  lemma Offset(page: Page, base: nat, recno: nat)
    requires IsPage(page) && base <= |page.repeats| && recno >= page.refRecno
    requires base > 0 ==> page.repeats[base - 1].recno + page.repeats[base - 1].rle <= recno
    requires base < |page.repeats| ==> recno < page.repeats[base].recno
    ensures var (i, r) := After(page, base);
      && r <= recno
      && (recno - r >= |page.cells| - i <==> recno >= Start(page, |page.cells|))
      && (recno - r < |page.cells| - i ==> In(page, i + (recno - r), recno) && page.cells[i + (recno - r)].rle == 1)
  {
    hide IsPage, Start;
    var (i, r) := After(page, base);
    if base > 0 {
      RepeatFacts(page, base - 1);
    }
    if base < |page.repeats| {
      RepeatFacts(page, base);
      SinglesAfter(page, base, page.repeats[base].indx);
      StartGrows(page, page.repeats[base].indx, |page.cells|);
    } else {
      SinglesAfter(page, base, |page.cells|);
    }
    if recno - r < |page.cells| - i {
      var s := i + (recno - r);
      SinglesAfter(page, base, s);
      SinglesAfter(page, base, s + 1);
    }
  }

  // ---------------------------------------------------------------- insert lists

  function Match(ins: seq<Insert>, recno: nat): (m: Option<Insert>)
    ensures m.Some? ==> m.value in ins && m.value.recno == recno
    ensures m.None? ==> forall i :: 0 <= i < |ins| ==> ins[i].recno != recno
  {
    if ins == [] then None else if ins[0].recno == recno then Some(ins[0]) else Match(ins[1..], recno)
  }

  lemma MatchIs(ins: seq<Insert>, recno: nat)
    ensures Match(ins, recno).Some? <==> exists i :: 0 <= i < |ins| && ins[i].recno == recno
  {
    if Match(ins, recno).Some? {
      var i :| 0 <= i < |ins| && ins[i] == Match(ins, recno).value;
    }
  }

  /** The largest record of the list below `recno`. */
  function LessThan(ins: seq<Insert>, recno: nat): (m: Option<nat>)
    requires SortedInserts(ins)
    ensures m.Some? ==> m.value < recno && Match(ins, m.value).Some?
    ensures forall i :: 0 <= i < |ins| && ins[i].recno < recno ==> m.Some? && ins[i].recno <= m.value
  {
    if ins == [] then None
    else if ins[|ins| - 1].recno < recno then
      var last := ins[|ins| - 1].recno;
      assert Match(ins, last).Some?;
      Some(last)
    else
      var m := LessThan(ins[..|ins| - 1], recno);
      if m.Some? then
        var i :| 0 <= i < |ins| - 1 && ins[..|ins| - 1][i] == Match(ins[..|ins| - 1], m.value).value;
        assert ins[i].recno == m.value;
        m
      else m
  }
}
