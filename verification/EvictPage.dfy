/** Evicting one page: whatever happens, the reference goes on denoting the same records.

    Reconciliation, splits and the review are known by contract only: `Env` says how each of them
    turned out, and `Faithful` what a successful one promises. */
module EvictPage {
  import opened Options

  type Content = map<int, string>

  /** What reconciliation left in the page's modify structure. */
  datatype Rec = NoResult | Empty | Multi(blocks: seq<Content>) | Replace(addr: Option<nat>, image: Option<Content>)

  /** `dirty` is modified since the last reconciliation; `instantiated` a truncated page read back. */
  datatype Page = Page(content: Content, dirty: bool, instantiated: bool, rec: Rec)

  datatype RefState = Disk | Deleted | Locked | Mem | Split(children: seq<Content>) | Gone

  datatype Code = Ok | Busy | Hard

  datatype Review = Review(code: Code, inmemSplit: bool)

  datatype Env = Env(
    hazard: bool,
    review: Review,
    splitInsert: Code,
    children: seq<Content>,
    reconcile: Code,
    rec: Rec,
    failpoint: bool,
    calloc: Code,
    rewrite: Code,
    splitMulti: Code,
    splitReverse: Code)

  datatype Tree = Tree(dead: bool, inMemory: bool, varColumn: bool)

  datatype Flags = Flags(closing: bool, noSplit: bool)

  function Merge(blocks: seq<Content>): Content {
    if blocks == [] then map[] else Merge(blocks[..|blocks| - 1]) + blocks[|blocks| - 1]
  }

  lemma MergeOne(blocks: seq<Content>)
    requires |blocks| == 1
    ensures Merge(blocks) == blocks[0]
  {
    assert Merge(blocks[..0]) == map[];
  }

  /** What a reader finds: some records, and whether a truncation hides them from those who see it. */
  datatype Meaning = Meaning(records: Content, truncated: bool)

  /** A truncation of nothing is nothing. */
  ghost predicate Same(a: Meaning, b: Meaning) {
    a.records == b.records && (a.records == map[] || a.truncated == b.truncated)
  }

  /** A reconciliation result stands for the page's records. */
  ghost predicate Faithful(rec: Rec, content: Content, disk: map<nat, Content>) {
    match rec
    case NoResult => false
    case Empty => content == map[]
    case Multi(blocks) => blocks != [] && Merge(blocks) == content
    case Replace(addr, image) =>
      addr.Some? && addr.value in disk && disk[addr.value] == content && (image.Some? ==> image.value == content)
  }

  /** The parent's page index: how many of its references are deleted. */
  class ParentIndex {
    const entries: nat
    var deletedEntries: nat

    constructor (entries: nat)
      ensures this.entries == entries && deletedEntries == 0
    {
      this.entries := entries;
      deletedEntries := 0;
    }
  }

  class Ref {
    const root: bool
    const leftmost: bool
    const home: ParentIndex
    var state: RefState
    var page: Option<Page>
    var addr: Option<nat>

    constructor (home: ParentIndex, root: bool, leftmost: bool, page: Page, addr: Option<nat>)
      ensures state == Mem && this.page == Some(page) && this.addr == addr
      ensures this.home == home && this.root == root && this.leftmost == leftmost
    {
      this.home, this.root, this.leftmost := home, root, leftmost;
      state, this.page, this.addr := Mem, Some(page), addr;
    }

    ghost predicate Readable(disk: map<nat, Content>)
      reads this
    {
      && (state.Mem? || state.Locked? ==> page.Some?)
      && (state.Disk? ==> addr.Some?)
      && (state.Disk? || state.Deleted? ==> page.None? && (addr.Some? ==> addr.value in disk))
    }

    /** What the reference denotes. */
    ghost function Denotes(disk: map<nat, Content>): Meaning
      requires Readable(disk)
      reads this
    {
      match state
      case Disk => Meaning(disk[addr.value], false)
      case Deleted => if addr.Some? then Meaning(disk[addr.value], true) else Meaning(map[], false)
      case Split(children) => Meaning(Merge(children), false)
      case Gone => Meaning(map[], false)
      case _ => PageMeaning(page.value)
    }

    /** The page in memory agrees with what is behind it: a clean page with its block, a reconciled one
        with the result, whose old block is gone. */
    ghost predicate Backed(disk: map<nat, Content>)
      reads this
    {
      page.Some? && !page.value.dirty ==>
        if page.value.rec.NoResult?
        then (if addr.Some? then addr.value in disk && disk[addr.value] == page.value.content else page.value.content == map[])
        else addr.None? && Faithful(page.value.rec, page.value.content, disk)
    }

    /** Discard the in-memory page. */
    method RefOut()
      modifies this`page
      ensures page.None?
    {
      page := None;
    }

    /** Mark a reference whose page is discarded deleted, or let a reverse split consume it. */
    method DeleteRef(flags: Flags, tree: Tree, splitReverse: Code) returns (r: Code)
      modifies this`state, home
      ensures root ==> r == Ok && state == old(state) && home.deletedEntries == old(home.deletedEntries)
      ensures !root ==> home.deletedEntries == old(home.deletedEntries) + if flags.noSplit || flags.closing then 0 else 1
      ensures !root ==> (r == Ok <==> !ReverseFails(flags, tree, splitReverse, old(home.deletedEntries)))
      ensures !root && r == Ok ==>
        state == if Reverses(flags, tree, old(home.deletedEntries)) && splitReverse == Ok then Gone else Deleted
      ensures !root && splitReverse != Busy ==>
        ((r == Ok && state.Deleted?) <==>
          flags.noSplit || flags.closing || home.entries <= 1 || 10 * home.deletedEntries <= home.entries || (tree.varColumn && leftmost))
      ensures r != Ok ==> r == splitReverse == Hard && state == old(state)
    {
      if root {
        return Ok;
      }
      if !flags.noSplit && !flags.closing {
        home.deletedEntries := home.deletedEntries + 1;
        var ndeleted := home.deletedEntries;
        if ndeleted > home.entries / 10 && home.entries > 1 {
          if !(tree.varColumn && leftmost) {
            if splitReverse == Ok {
              state := Gone;
              return Ok;
            }
            if splitReverse != Busy {
              return splitReverse;
            }
          }
        }
      }
      state := Deleted;
      return Ok;
    }

    /** A reverse split is tried: with this page more than a tenth of the parent's references, of which
        there are several, is deleted. */
    predicate Reverses(flags: Flags, tree: Tree, deletedEntries: nat) {
      && !flags.noSplit && !flags.closing
      && deletedEntries + 1 > home.entries / 10 && home.entries > 1
      && !(tree.varColumn && leftmost)
    }

    /** It is tried and fails for good. */
    predicate ReverseFails(flags: Flags, tree: Tree, splitReverse: Code, deletedEntries: nat) {
      Reverses(flags, tree, deletedEntries) && splitReverse == Hard
    }

    method CleanUpdate(flags: Flags, tree: Tree, env: Env) returns (r: Code)
      requires page.Some? && !root
      modifies this, home
      ensures addr == old(addr)
      ensures r == Ok ==> page.None?
      ensures r == Ok && old(addr).Some? ==> state == if old(page).value.instantiated then Deleted else Disk
      ensures r == Ok && old(addr).None? ==>
        state == if Reverses(flags, tree, old(home.deletedEntries)) && env.splitReverse == Ok then Gone else Deleted
      ensures r != Ok ==> page.None? && state == old(state)
      ensures r == Ok <==> old(addr).Some? || !ReverseFails(flags, tree, env.splitReverse, old(home.deletedEntries))
    {
      var instantiated := page.value.instantiated;
      RefOut();
      if addr.None? {
        r := DeleteRef(flags, tree, env.splitReverse);
        if r != Ok && r != Busy {
          return r;
        }
      } else {
        state := if instantiated then Deleted else Disk;
      }
      return Ok;
    }

    method DirtyUpdate(flags: Flags, tree: Tree, env: Env, ghost disk: map<nat, Content>) returns (r: Code)
      requires page.Some? && !page.value.dirty && !root && state.Locked?
      requires page.value.rec.NoResult? || (addr.None? && Faithful(page.value.rec, page.value.content, disk))
      modifies this, home
      ensures r == Ok ==> Readable(disk) && Same(Denotes(disk), Meaning(old(page).value.content, false))
      ensures old(page).value.rec.NoResult? ==> r == Hard
      ensures r == Ok <==>
        match old(page).value.rec
        case NoResult => false
        case Empty => !ReverseFails(flags, tree, env.splitReverse, old(home.deletedEntries))
        case Multi(blocks) => (if |blocks| == 1 then env.rewrite else env.splitMulti) == Ok
        case Replace(_, image) => env.calloc == Ok && (image.Some? ==> env.rewrite == Ok)
      ensures LeavesTrace(flags, tree, env, old(page).value.rec, old(home.deletedEntries)) ==> r != Ok
      ensures r != Ok ==> state == old(state)
      ensures r != Ok && page == old(page) ==> addr == old(addr)
      ensures r != Ok && page.Some? && page != old(page) ==> addr.Some? && !page.value.dirty && !page.value.rec.NoResult?
      ensures r != Ok ==> (page == old(page) <==> !LeavesTrace(flags, tree, env, old(page).value.rec, old(home.deletedEntries)))
    {
      var rec := page.value.rec;
      match rec {
        case NoResult =>
          return Hard;
        case Empty =>
          RefOut();
          r := DeleteRef(flags, tree, env.splitReverse);
          if r != Ok && r != Busy {
            return r;
          }
        case Multi(blocks) =>
          if |blocks| == 1 {
            if env.rewrite != Ok {
              return env.rewrite;
            }
            Rewritten(blocks[0]);
            MergeOne(blocks);
          } else {
            if env.splitMulti != Ok {
              return env.splitMulti;
            }
            state, page := Split(blocks), None;
          }
        case Replace(replacement, image) =>
          if env.calloc != Ok {
            return env.calloc;
          }
          addr := replacement;
          page := Some(page.value.(rec := Replace(None, image)));
          if image.None? {
            RefOut();
            state := Disk;
          } else {
            if env.rewrite != Ok {
              return env.rewrite;
            }
            Rewritten(image.value);
          }
      }
      return Ok;
    }

    /** A successful rewrite: a fresh page with the same records, dirty unless a block holds them. */
    method Rewritten(content: Content)
      modifies this`page, this`state
      ensures state == Mem && page == Some(Page(content, addr.None?, false, NoResult))
    {
      page := Some(Page(content, addr.None?, false, NoResult));
      state := Mem;
    }

    /** The failures that do not leave page and address as they were: a hard failure to reverse-split
        after the page was discarded, and a failed rewrite after the replacement block was installed. */
    predicate LeavesTrace(flags: Flags, tree: Tree, env: Env, rec: Rec, deletedEntries: nat) {
      match rec
      case Empty => ReverseFails(flags, tree, env.splitReverse, deletedEntries)
      case Replace(_, image) => env.calloc == Ok && image.Some? && env.rewrite != Ok
      case _ => false
    }

    /** What the contracts of the calls promise when they succeed. */
    ghost predicate Trusted(env: Env, disk: map<nat, Content>)
      reads this
    {
      && page.Some?
      && (env.review.inmemSplit ==> page.value.dirty)
      && (env.splitInsert == Ok ==> Merge(env.children) == page.value.content)
      && (env.reconcile == Ok ==> Faithful(env.rec, page.value.content, disk))
    }

    /** The eviction gets as far as updating the reference. */
    predicate Reaches(closing: bool, env: Env)
      requires page.Some?
      reads this
    {
      && (closing || !env.hazard)
      && env.review.code == Ok && !env.review.inmemSplit
      && (page.value.dirty ==> env.reconcile == Ok)
      && (closing || !env.failpoint)
    }

    /** The failure of the update cannot be undone. */
    predicate Irreversible(flags: Flags, tree: Tree, env: Env)
      requires page.Some?
      reads this, home
    {
      && Reaches(flags.closing, env)
      && if !page.value.dirty && page.value.rec.NoResult?
         then !tree.inMemory && addr.None? && ReverseFails(flags, tree, env.splitReverse, home.deletedEntries)
         else LeavesTrace(flags, tree, env, if page.value.dirty then env.rec else page.value.rec, home.deletedEntries)
    }

    /** Every call the eviction makes on a live non-root page succeeds: nobody else uses the page, the
        review lets it pass, and then either the split it asked for is made, or the page is
        reconciled if it is dirty, no failure is injected, and the result can be installed. */
    ghost predicate Goes(flags: Flags, tree: Tree, env: Env)
      requires page.Some?
      reads this, home
    {
      && (env.hazard ==> flags.closing)
      && env.review.code == Ok
      && if env.review.inmemSplit then env.splitInsert == Ok
         else
           && (page.value.dirty ==> env.reconcile == Ok)
           && (env.failpoint ==> flags.closing)
           && match if page.value.dirty then env.rec else page.value.rec
              case NoResult => !page.value.dirty && !tree.inMemory && (addr.None? ==> !ReverseFails(flags, tree, env.splitReverse, home.deletedEntries))
              case Empty => !ReverseFails(flags, tree, env.splitReverse, home.deletedEntries)
              case Multi(blocks) => (if |blocks| == 1 then env.rewrite else env.splitMulti) == Ok
              case Replace(_, image) => env.calloc == Ok && (image.Some? ==> env.rewrite == Ok)
    }

    /** A dead tree's page needs neither reconciliation nor a split of its parent, and a root page has no
        parent to update. */
    ghost predicate GoesUnwritten(closing: bool, tree: Tree, env: Env)
      requires page.Some?
      reads this
    {
      && (env.hazard ==> closing)
      && env.review.code == Ok
      && if env.review.inmemSplit then env.splitInsert == Ok
         else tree.dead || ((page.value.dirty ==> env.reconcile == Ok) && (env.failpoint ==> closing))
    }

    /** Evict the page of a reference its caller has locked. */
    method Evict(previous: RefState, tree: Tree, callFlags: Flags, env: Env, ghost disk: map<nat, Content>) returns (r: Code)
      requires state.Locked? && previous.Mem? && Backed(disk) && Trusted(env, disk)
      modifies this, home
      ensures !callFlags.closing && env.hazard ==>
        r == Busy && page == old(page) && addr == old(addr) && state == previous && home.deletedEntries == old(home.deletedEntries)
      ensures !tree.dead && !root ==> (r == Ok <==> old(Goes(callFlags, tree, env)))
      ensures tree.dead || root ==> (r == Ok <==> old(GoesUnwritten(callFlags.closing, tree, env)))
      ensures !tree.dead && !root && r == Ok ==> Readable(disk) && Same(Denotes(disk), old(PageMeaning(page.value)))
      ensures !callFlags.closing && r != Ok ==> state == previous
      ensures callFlags.closing && r != Ok ==> state == old(state)
      ensures !tree.dead && !root && r != Ok ==>
        (Usable(disk, old(PageMeaning(page.value))) <==> !old(Irreversible(callFlags, tree, env)))
      ensures (tree.dead || root) && r != Ok ==> Usable(disk, old(PageMeaning(page.value)))
      ensures r == Ok && env.review.inmemSplit ==> state == Split(env.children) && page.None?
      ensures r == Ok && !env.review.inmemSplit && root ==> state == old(state) && page.None?
      ensures r == Ok && !env.review.inmemSplit && tree.dead && !root ==> page.None? && addr == old(addr)
      ensures r == Ok && !env.review.inmemSplit && tree.dead && !root ==>
        state == if old(addr).Some? && !old(page).value.instantiated then Disk else Deleted
      ensures !tree.dead && !root && old(Irreversible(callFlags, tree, env)) ==> r != Ok
    {
      var flags := if tree.dead then callFlags.(noSplit := true) else callFlags;
      r := Attempt(tree, flags, env, disk);
      if r != Ok && !flags.closing {
        state := previous;
      }
    }

    /** A page still in memory, with its records, that can be evicted again. */
    ghost predicate Usable(disk: map<nat, Content>, was: Meaning)
      reads this
    {
      page.Some? && Same(PageMeaning(page.value), was) && Backed(disk)
    }

    method Attempt(tree: Tree, flags: Flags, env: Env, ghost disk: map<nat, Content>) returns (r: Code)
      requires state.Locked? && Backed(disk) && Trusted(env, disk)
      requires tree.dead ==> flags.noSplit
      modifies this, home
      ensures !flags.closing && env.hazard ==>
        r == Busy && page == old(page) && addr == old(addr) && home.deletedEntries == old(home.deletedEntries)
      ensures !tree.dead && !root ==> (r == Ok <==> old(Goes(flags, tree, env)))
      ensures tree.dead || root ==> (r == Ok <==> old(GoesUnwritten(flags.closing, tree, env)))
      ensures !tree.dead && !root && r == Ok ==> Readable(disk) && Same(Denotes(disk), old(PageMeaning(page.value)))
      ensures !tree.dead && !root && r != Ok ==>
        (Usable(disk, old(PageMeaning(page.value))) <==> !old(Irreversible(flags, tree, env)))
      ensures !tree.dead && !root && old(Irreversible(flags, tree, env)) ==> r != Ok
      ensures r != Ok ==> state == old(state)
      ensures (tree.dead || root) && r != Ok ==> Usable(disk, old(PageMeaning(page.value)))
      ensures r == Ok && env.review.inmemSplit ==> state == Split(env.children) && page.None?
      ensures r == Ok && !env.review.inmemSplit && root ==> state == old(state) && page.None?
      ensures r == Ok && !env.review.inmemSplit && tree.dead && !root ==> page.None? && addr == old(addr)
      ensures r == Ok && !env.review.inmemSplit && tree.dead && !root ==>
        state == if old(addr).Some? && !old(page).value.instantiated then Disk else Deleted
    {
      if !flags.closing && env.hazard {
        return Busy;
      }
      if env.review.code != Ok {
        return env.review.code;
      }
      if env.review.inmemSplit {
        if env.splitInsert == Ok {
          state, page := Split(env.children), None;
        }
        return env.splitInsert;
      }
      if !tree.dead && page.value.dirty {
        if env.reconcile != Ok {
          return env.reconcile;
        }
        page, addr := Some(page.value.(rec := env.rec, dirty := false)), None;
      }
      if !flags.closing && !tree.dead && env.failpoint {
        return Busy;
      }
      var cleanPage := !page.value.dirty && page.value.rec.NoResult?;
      if root {
        RefOut();
        return Ok;
      } else if (cleanPage && !tree.inMemory) || tree.dead {
        r := CleanUpdate(flags, tree, env);
      } else {
        r := DirtyUpdate(flags, tree, env, disk);
      }
    }
  }

  function PageMeaning(page: Page): Meaning {
    Meaning(page.content, page.instantiated && !page.dirty && page.rec.NoResult?)
  }

  /** A page reconciled to block 7 with a disk image, whose rewrite fails: the block is already the
      reference's address when the page is given back as in memory. */
  method FailedRewrite() returns (ref: Ref, r: Code, ghost disk: map<nat, Content>)
    ensures fresh(ref) && r != Ok && ref.state.Mem? && !ref.Usable(disk, Meaning(map[1 := "a"], false))
  {
    var content: Content := map[1 := "a"];
    disk := map[7 := content];
    var home := new ParentIndex(20);
    ref := new Ref(home, false, false, Page(content, true, false, NoResult), None);
    ref.state := Locked;
    var env := Env(false, Review(Ok, false), Ok, [content], Ok, Replace(Some(7), Some(content)), false, Ok, Hard, Ok, Ok);
    MergeOne(env.children);
    r := ref.Evict(Mem, Tree(false, false, false), Flags(false, false), env, disk);
  }

  /** An empty page, discarded before the reverse split of its parent fails for good: the reference is
      given back as in memory although its page is gone. */
  method FailedReverse() returns (ref: Ref, r: Code)
    ensures fresh(ref) && r != Ok && ref.state.Mem? && !ref.Usable(map[], Meaning(map[], false))
  {
    var home := new ParentIndex(2);
    ref := new Ref(home, false, false, Page(map[], false, false, NoResult), None);
    ref.state := Locked;
    var env := Env(false, Review(Ok, false), Hard, [], Hard, NoResult, false, Ok, Ok, Ok, Hard);
    r := ref.Evict(Mem, Tree(false, false, false), Flags(false, false), env, map[]);
  }
}
