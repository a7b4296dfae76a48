/** Records in key order, and the plain backward scan that the cursors refine. */
module Records {
  import opened Options

  type Value = string

  /** What a snapshot gets to see of a record. */
  datatype Read = Invalid | Tombstone | Found(value: Value)

  datatype Record = Record(key: int, read: Read)

  datatype Bound = Bound(key: int, inclusive: bool)

  predicate BelowBound(lower: Option<Bound>, key: int) {
    lower.Some? && (if lower.value.inclusive then key < lower.value.key else key <= lower.value.key)
  }

  /** The key is within the lower bound. */
  ghost predicate Inside(lower: Option<Bound>, k: int) {
    lower.Some? ==> if lower.value.inclusive then k >= lower.value.key else k > lower.value.key
  }

  /** The result of one call: a record, the end of the page or of the bounds, or a prepared update. */
  datatype Outcome = Got | NotFound(outOfBounds: bool) | PrepareConflict

  datatype Scan = End | OutOfBounds | Blocked(index: nat) | At(index: nat)

  /** The nearest record before position `q` that a scan returns, or that stops it because its key is in
      `busy`, the records with a prepared update.  Keys-only scans return every record, without looking
      at bounds or updates. */
  function ScanBack(recs: seq<Record>, keyOnly: bool, lower: Option<Bound>, busy: set<int>, q: nat): (s: Scan)
    requires q <= |recs|
    ensures s.At? || s.Blocked? ==> s.index < q
  {
    if q == 0 then End
    else if keyOnly then At(q - 1)
    else if BelowBound(lower, recs[q - 1].key) then OutOfBounds
    else if recs[q - 1].key in busy then Blocked(q - 1)
    else if recs[q - 1].read.Found? then At(q - 1)
    else ScanBack(recs, keyOnly, lower, busy, q - 1)
  }

  lemma OneStep(recs: seq<Record>, keyOnly: bool, lower: Option<Bound>, busy: set<int>, q: nat)
    requires 0 < q <= |recs|
    ensures ScanBack(recs, keyOnly, lower, busy, q) ==
      if keyOnly then At(q - 1)
      else if BelowBound(lower, recs[q - 1].key) then OutOfBounds
      else if recs[q - 1].key in busy then Blocked(q - 1)
      else if recs[q - 1].read.Found? then At(q - 1)
      else ScanBack(recs, keyOnly, lower, busy, q - 1)
  {
  }

  lemma EndOfScan(recs: seq<Record>, keyOnly: bool, lower: Option<Bound>, busy: set<int>)
    ensures ScanBack(recs, keyOnly, lower, busy, 0) == End
  {
  }

  /** Everything a scan returns from position `q` back when no update is prepared. */
  function Listing(recs: seq<Record>, keyOnly: bool, lower: Option<Bound>, q: nat): seq<Record>
    requires q <= |recs|
  {
    var s := ScanBack(recs, keyOnly, lower, {}, q);
    if s.At? then [recs[s.index]] + Listing(recs, keyOnly, lower, s.index) else []
  }

  lemma {:induction false} NeverBlocked(recs: seq<Record>, keyOnly: bool, lower: Option<Bound>, q: nat)
    requires q <= |recs|
    ensures !ScanBack(recs, keyOnly, lower, {}, q).Blocked?
  {
    if q > 0 {
      NeverBlocked(recs, keyOnly, lower, q - 1);
    }
  }

  lemma SameListing(recs: seq<Record>, keyOnly: bool, lower: Option<Bound>, p: nat, q: nat)
    requires p <= |recs| && q <= |recs| && ScanBack(recs, keyOnly, lower, {}, p) == ScanBack(recs, keyOnly, lower, {}, q)
    ensures Listing(recs, keyOnly, lower, p) == Listing(recs, keyOnly, lower, q)
  {
    hide ScanBack;
  }

  /** A scan met by prepared updates has skipped nothing: what it returns is what it would have
      returned, and where it is stopped the rest of the listing is still to come. */
  lemma {:induction false} ListingAfter(recs: seq<Record>, keyOnly: bool, lower: Option<Bound>, busy: set<int>, q: nat)
    requires q <= |recs|
    ensures Listing(recs, keyOnly, lower, q) ==
      match ScanBack(recs, keyOnly, lower, busy, q)
      case At(i) => [recs[i]] + Listing(recs, keyOnly, lower, i)
      case Blocked(i) => Listing(recs, keyOnly, lower, i + 1)
      case _ => []
  {
    if q > 0 && !keyOnly && !BelowBound(lower, recs[q - 1].key) && recs[q - 1].key !in busy && !recs[q - 1].read.Found? {
      ListingAfter(recs, keyOnly, lower, busy, q - 1);
      SameListing(recs, keyOnly, lower, q, q - 1);
    }
  }

  ghost predicate SortedKeys(recs: seq<Record>) {
    forall i, j :: 0 <= i < j < |recs| ==> recs[i].key < recs[j].key
  }

  ghost predicate Shown(rec: Record, keyOnly: bool, lower: Option<Bound>) {
    keyOnly || (rec.read.Found? && Inside(lower, rec.key))
  }

  /** A record in bounds with nothing to show and no prepared update. */
  ghost predicate Passable(rec: Record, keyOnly: bool, lower: Option<Bound>, busy: set<int>) {
    !keyOnly && Inside(lower, rec.key) && !rec.read.Found? && rec.key !in busy
  }

  /** The records from `low` up to `q` are passable. */
  ghost predicate Clear(recs: seq<Record>, keyOnly: bool, lower: Option<Bound>, busy: set<int>, low: nat, q: nat)
    requires q <= |recs|
  {
    forall j :: low <= j < q ==> Passable(recs[j], keyOnly, lower, busy)
  }

  /** What a scan from position `q` back comes to: the nearest record that is not passable, and whether
      that is out of bounds, has a prepared update or is one to show. */
  ghost predicate ComesTo(s: Scan, recs: seq<Record>, keyOnly: bool, lower: Option<Bound>, busy: set<int>, q: nat)
    requires q <= |recs|
  {
    match s
    case End => Clear(recs, keyOnly, lower, busy, 0, q)
    case OutOfBounds =>
      exists i :: 0 <= i < q && !keyOnly && !Inside(lower, recs[i].key) && Clear(recs, keyOnly, lower, busy, i + 1, q)
    case Blocked(i) =>
      && i < q && !keyOnly && Inside(lower, recs[i].key) && recs[i].key in busy
      && Clear(recs, keyOnly, lower, busy, i + 1, q)
    case At(i) =>
      && i < q && Shown(recs[i], keyOnly, lower) && (keyOnly || recs[i].key !in busy)
      && Clear(recs, keyOnly, lower, busy, i + 1, q)
  }

  lemma {:induction false} ScanComesTo(recs: seq<Record>, keyOnly: bool, lower: Option<Bound>, busy: set<int>, q: nat)
    requires q <= |recs|
    ensures ComesTo(ScanBack(recs, keyOnly, lower, busy, q), recs, keyOnly, lower, busy, q)
  {
    if q > 0 && Passable(recs[q - 1], keyOnly, lower, busy) {
      ScanComesTo(recs, keyOnly, lower, busy, q - 1);
      var s := ScanBack(recs, keyOnly, lower, busy, q);
      if s.OutOfBounds? {
        var i :| 0 <= i < q - 1 && !keyOnly && !Inside(lower, recs[i].key) && Clear(recs, keyOnly, lower, busy, i + 1, q - 1);
        assert Clear(recs, keyOnly, lower, busy, i + 1, q);
      }
    } else if q > 0 {
      assert Clear(recs, keyOnly, lower, busy, q, q);
    }
  }

  lemma {:induction false} ScanBackIs(recs: seq<Record>, keyOnly: bool, lower: Option<Bound>, q: nat, k: nat)
    requires q <= |recs| && SortedKeys(recs) && k < q
    ensures var s := ScanBack(recs, keyOnly, lower, {}, q);
      && (s.At? ==> Shown(recs[s.index], keyOnly, lower) && (k > s.index ==> !Shown(recs[k], keyOnly, lower)))
      && (!s.At? ==> !Shown(recs[k], keyOnly, lower))
  {
    if k < q - 1 {
      ScanBackIs(recs, keyOnly, lower, q - 1, k);
    }
    ScanBackAt(recs, keyOnly, lower, q);
  }

  lemma {:induction false} ScanBackAt(recs: seq<Record>, keyOnly: bool, lower: Option<Bound>, q: nat)
    requires q <= |recs|
    ensures var s := ScanBack(recs, keyOnly, lower, {}, q); s.At? ==> Shown(recs[s.index], keyOnly, lower)
  {
    if q > 0 {
      ScanBackAt(recs, keyOnly, lower, q - 1);
    }
  }

  /** The listing holds exactly the records to be shown, each once, in descending key order. */
  lemma {:induction false} ListingIsEverything(recs: seq<Record>, keyOnly: bool, lower: Option<Bound>, q: nat, k: nat)
    requires q <= |recs| && SortedKeys(recs) && k < |recs|
    ensures recs[k] in Listing(recs, keyOnly, lower, q) <==> k < q && Shown(recs[k], keyOnly, lower)
    ensures Descending(Listing(recs, keyOnly, lower, q))
    ensures forall r :: r in Listing(recs, keyOnly, lower, q) ==> q > 0 && r.key <= recs[q - 1].key
    decreases q
  {
    hide Shown, ScanBack;
    var s := ScanBack(recs, keyOnly, lower, {}, q);
    if k < q {
      ScanBackIs(recs, keyOnly, lower, q, k);
    }
    if s.At? {
      ListingIsEverything(recs, keyOnly, lower, s.index, k);
    }
  }

  lemma {:induction false} ListingIsPart(recs: seq<Record>, keyOnly: bool, lower: Option<Bound>, q: nat)
    requires q <= |recs|
    ensures forall r :: r in Listing(recs, keyOnly, lower, q) ==> r in recs
    decreases q
  {
    hide ScanBack;
    var s := ScanBack(recs, keyOnly, lower, {}, q);
    if s.At? {
      ListingIsPart(recs, keyOnly, lower, s.index);
    }
  }

  /** Exactly the records to be shown, each once, in descending key order. */
  ghost predicate ListsShown(recs: seq<Record>, keyOnly: bool, lower: Option<Bound>, out: seq<Record>) {
    Descending(out) && forall r :: r in out <==> r in recs && Shown(r, keyOnly, lower)
  }

  /** Records in key order are listed exactly if they are to be shown, each once, in reverse. */
  lemma ListingIsShown(recs: seq<Record>, keyOnly: bool, lower: Option<Bound>)
    requires SortedKeys(recs)
    ensures ListsShown(recs, keyOnly, lower, Listing(recs, keyOnly, lower, |recs|))
  {
    hide Listing, SortedKeys, Shown;
    var out := Listing(recs, keyOnly, lower, |recs|);
    ListingIsPart(recs, keyOnly, lower, |recs|);
    forall r | r in recs ensures r in out <==> Shown(r, keyOnly, lower) {
      var k :| 0 <= k < |recs| && recs[k] == r;
      ListingIsEverything(recs, keyOnly, lower, |recs|, k);
    }
    assert Descending(out) by {
      if recs == [] {
        NothingListed(recs, keyOnly, lower);
      } else {
        ListingIsEverything(recs, keyOnly, lower, |recs|, 0);
      }
    }
  }

  lemma NothingListed(recs: seq<Record>, keyOnly: bool, lower: Option<Bound>)
    ensures Listing(recs, keyOnly, lower, 0) == []
  {
  }

  lemma SortedJoin(a: seq<Record>, b: seq<Record>)
    requires SortedKeys(a) && SortedKeys(b) && forall r, s :: r in a && s in b ==> r.key < s.key
    ensures SortedKeys(a + b)
  {
    forall i, j | 0 <= i < j < |a + b| ensures (a + b)[i].key < (a + b)[j].key {
      if i < |a| <= j {
        assert a[i] in a && b[j - |a|] in b;
      }
    }
  }

  ghost predicate Descending(s: seq<Record>) {
    forall i, j :: 0 <= i < j < |s| ==> s[i].key > s[j].key
  }

  /** A scan that crosses from `b` into `a`. */
  lemma {:induction false} ScanBackAppend(a: seq<Record>, b: seq<Record>, keyOnly: bool, lower: Option<Bound>, busy: set<int>, q: nat)
    requires q <= |b|
    ensures ScanBack(a + b, keyOnly, lower, busy, |a| + q) ==
      match ScanBack(b, keyOnly, lower, busy, q)
      case At(i) => At(|a| + i)
      case Blocked(i) => Blocked(|a| + i)
      case OutOfBounds => OutOfBounds
      case End => ScanBack(a, keyOnly, lower, busy, |a|)
  {
    if q == 0 {
      ScanBackPrefix(a, b, keyOnly, lower, busy, |a|);
    } else {
      assert (a + b)[|a| + q - 1] == b[q - 1];
      ScanBackAppend(a, b, keyOnly, lower, busy, q - 1);
    }
  }

  lemma {:induction false} ScanBackPrefix(a: seq<Record>, b: seq<Record>, keyOnly: bool, lower: Option<Bound>, busy: set<int>, q: nat)
    requires q <= |a|
    ensures ScanBack(a + b, keyOnly, lower, busy, q) == ScanBack(a, keyOnly, lower, busy, q)
  {
    if q > 0 {
      assert (a + b)[q - 1] == a[q - 1];
      ScanBackPrefix(a, b, keyOnly, lower, busy, q - 1);
    }
  }
}
