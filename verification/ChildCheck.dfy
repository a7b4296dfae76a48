/** The check that an internal page may be evicted: no cursor is among its children, and none of
    them is a truncation that could still be undone.

    The parent is locked, so no cursor can enter; the ones already inside hop between children,
    each keeping the child it is on out of the on-disk states.  A hop is one step, although the
    program holds both children for a while: that only keeps more children in memory. */
module ChildCheck {
  import opened Options

  /** `Ours` is the locked state as this check sets it, `Locked` as anyone else does. */
  datatype ChildState = Disk | Deleted | Mem | Locked | Ours

  datatype Cursor = Cursor(forwards: bool, at: nat)

  /** Where the check stands.  `Trying` has seen child `k` deleted and not yet swapped its state. */
  datatype Phase = Fwd(k: nat) | Bwd(k: nat) | Third(k: nat) | Trying(k: nat) | Held(k: nat) | Passed | Busy

  /** `theirs` records what the other threads have made of the children's states, `found` and `verdicts`
      what the third pass saw of each child and what it was told about its truncation. */
  datatype World = World(states: seq<ChildState>, cursors: map<nat, Cursor>, phase: Phase, theirs: seq<ChildState>,
                         found: map<nat, ChildState>, verdicts: map<nat, bool>)

  datatype Action =
    | Hop(c: nat, to: nat)
    | Leave(c: nat)
    | Turn(c: nat)
    | Change(i: nat, state: ChildState)
    | Look
    | Swap
    | Decide(visible: bool)

  predicate Quiet(s: ChildState) {
    s.Disk? || s.Deleted?
  }

  ghost predicate Occupied(cursors: map<nat, Cursor>, i: nat) {
    exists c :: c in cursors && cursors[c].at == i
  }

  ghost predicate Enabled(w: World, a: Action, mayTurn: bool)
    requires |w.states| == |w.theirs|
  {
    match a
    case Hop(c, to) =>
      && c in w.cursors && to < |w.states| && !w.states[to].Ours? && !w.states[to].Locked?
      && (if w.cursors[c].forwards then to > w.cursors[c].at else to < w.cursors[c].at)
    case Leave(c) => c in w.cursors
    case Turn(c) => c in w.cursors && mayTurn
    case Change(i, s) => i < |w.states| && !w.states[i].Ours? && !s.Ours? && (Occupied(w.cursors, i) ==> !Quiet(s))
    case Look => !w.phase.Trying? && !w.phase.Held? && !w.phase.Passed? && !w.phase.Busy? && w.phase.k <= |w.states|
    case Swap => w.phase.Trying? && w.phase.k < |w.states|
    case Decide(_) => w.phase.Held? && w.phase.k < |w.states|
  }

  /** Looking at the next child, in the pass under way. */
  function Looked(w: World, checkpoint: bool): Phase
    requires (w.phase.Fwd? || w.phase.Bwd? || w.phase.Third?) && w.phase.k <= |w.states|
  {
    var k, n := w.phase.k, |w.states|;
    match w.phase
    case Fwd(_) => if k == n then Bwd(n) else if Quiet(w.states[k]) then Fwd(k + 1) else Busy
    case Bwd(_) =>
      if k == 0 then (if checkpoint then Passed else Third(0))
      else if Quiet(w.states[k - 1]) then Bwd(k - 1) else Busy
    case Third(_) =>
      if k == n then Passed
      else if w.states[k].Disk? then Third(k + 1)
      else if w.states[k].Deleted? then Trying(k) else Busy
  }

  function Next(w: World, a: Action, ghost mayTurn: bool, checkpoint: bool): World
    requires |w.states| == |w.theirs| && Enabled(w, a, mayTurn)
  {
    match a
    case Hop(c, to) =>
      w.(cursors := w.cursors[c := w.cursors[c].(at := to)], states := w.states[to := Mem], theirs := w.theirs[to := Mem])
    case Leave(c) => w.(cursors := w.cursors - {c})
    case Turn(c) => w.(cursors := w.cursors[c := w.cursors[c].(forwards := !w.cursors[c].forwards)])
    case Change(i, s) => w.(states := w.states[i := s], theirs := w.theirs[i := s])
    case Look =>
      if w.phase.Third? && w.phase.k < |w.states|
      then w.(phase := Looked(w, checkpoint), found := w.found[w.phase.k := w.states[w.phase.k]])
      else w.(phase := Looked(w, checkpoint))
    case Swap =>
      if w.states[w.phase.k].Deleted?
      then w.(states := w.states[w.phase.k := Ours], phase := Held(w.phase.k))
      else w.(phase := Busy)
    case Decide(visible) =>
      w.(states := w.states[w.phase.k := Deleted], phase := if visible then Third(w.phase.k + 1) else Busy,
         verdicts := w.verdicts[w.phase.k := visible])
  }

  /** The parent has just been locked: any cursors may be inside, each on a child in memory. */
  ghost predicate Init(w: World, n: nat) {
    && |w.states| == n && w.theirs == w.states && w.phase == Fwd(0) && w.found == map[] && w.verdicts == map[]
    && (forall i :: 0 <= i < n ==> !w.states[i].Ours?)
    && (forall c :: c in w.cursors ==> w.cursors[c].at < n && !Quiet(w.states[w.cursors[c].at]))
  }

  ghost predicate Steps(w: World, w': World, mayTurn: bool, checkpoint: bool) {
    |w.states| == |w.theirs| && exists a :: IsStep(w, a, w', mayTurn, checkpoint)
  }

  ghost predicate IsStep(w: World, a: Action, w': World, mayTurn: bool, checkpoint: bool)
    requires |w.states| == |w.theirs|
  {
    Enabled(w, a, mayTurn) && Next(w, a, mayTurn, checkpoint) == w'
  }

  ghost predicate IsRun(run: seq<World>, n: nat, mayTurn: bool, checkpoint: bool) {
    && run != []
    && if |run| == 1 then Init(run[0], n)
       else IsRun(run[..|run| - 1], n, mayTurn, checkpoint) && Steps(run[|run| - 2], run[|run| - 1], mayTurn, checkpoint)
  }

  ghost predicate Reachable(w: World, n: nat, mayTurn: bool, checkpoint: bool) {
    exists run :: IsRun(run, n, mayTurn, checkpoint) && run[|run| - 1] == w
  }

  // ---------------------------------------------------------------- the invariant

  predicate Scanned(p: Phase) {
    p.Third? || p.Trying? || p.Held? || p.Passed?
  }

  /** The forward pass drives cursors that go forwards ahead of it, the backward pass those that go
      backwards; a single child has no room to get past. */
  ghost predicate Caught(w: World, n: nat, mayTurn: bool) {
    forall c :: c in w.cursors ==>
      var x := w.cursors[c];
      && (w.phase.Fwd? && (!mayTurn || n < 2) && (x.forwards || n < 2) ==> x.at >= w.phase.k)
      && (w.phase.Bwd? && (!mayTurn || n < 2) ==> !x.forwards && n >= 2 && x.at < w.phase.k)
      && (Scanned(w.phase) ==> mayTurn && n >= 2)
  }

  ghost predicate InBounds(w: World, n: nat) {
    && |w.states| == n == |w.theirs|
    && (w.phase.Fwd? || w.phase.Bwd? || w.phase.Third? ==> w.phase.k <= n)
    && (w.phase.Trying? || w.phase.Held? ==> w.phase.k < n)
    && (forall c :: c in w.cursors ==> w.cursors[c].at < n && !Quiet(w.theirs[w.cursors[c].at]))
  }

  /** The states are what the other threads left, but for the one child this check holds. */
  ghost predicate Undisturbed(w: World) {
    && |w.theirs| == |w.states|
    && (forall i :: 0 <= i < |w.theirs| ==> !w.theirs[i].Ours?)
    && if w.phase.Held?
       then w.phase.k < |w.states| && w.theirs[w.phase.k].Deleted? && w.states == w.theirs[w.phase.k := Ours]
       else w.states == w.theirs
  }

  /** The third pass saw child `i` on disk, or deleted by a truncation that it was told is visible. */
  predicate Resolved(w: World, i: nat) {
    i in w.found && (w.found[i].Disk? || (w.found[i].Deleted? && i in w.verdicts && w.verdicts[i]))
  }

  /** So it is with the children the third pass is done with. */
  ghost predicate Judged(w: World, n: nat, checkpoint: bool) {
    && (w.phase.Third? || w.phase.Trying? || w.phase.Held? ==> forall i :: 0 <= i < w.phase.k ==> Resolved(w, i))
    && (w.phase.Trying? || w.phase.Held? ==> w.phase.k in w.found && w.found[w.phase.k].Deleted?)
    && (w.phase.Passed? && !checkpoint ==> forall i :: 0 <= i < n ==> Resolved(w, i))
  }

  ghost predicate Inv(w: World, n: nat, mayTurn: bool, checkpoint: bool) {
    InBounds(w, n) && Undisturbed(w) && Caught(w, n, mayTurn) && Judged(w, n, checkpoint)
  }

  lemma StepKeepsBounds(w: World, a: Action, n: nat, mayTurn: bool, checkpoint: bool)
    requires InBounds(w, n) && Undisturbed(w) && Enabled(w, a, mayTurn)
    ensures InBounds(Next(w, a, mayTurn, checkpoint), n)
  {
    var w' := Next(w, a, mayTurn, checkpoint);
    if a.Change? {
      forall c | c in w'.cursors ensures !Quiet(w'.theirs[w'.cursors[c].at]) {
        assert w.cursors[c].at == a.i ==> Occupied(w.cursors, a.i);
      }
    }
  }

  lemma StepKeepsUndisturbed(w: World, a: Action, n: nat, mayTurn: bool, checkpoint: bool)
    requires InBounds(w, n) && Undisturbed(w) && Enabled(w, a, mayTurn)
    ensures Undisturbed(Next(w, a, mayTurn, checkpoint))
  {
  }

  lemma StepKeepsCaught(w: World, a: Action, n: nat, mayTurn: bool, checkpoint: bool)
    requires Inv(w, n, mayTurn, checkpoint) && Enabled(w, a, mayTurn)
    ensures Caught(Next(w, a, mayTurn, checkpoint), n, mayTurn)
  {
  }

  lemma StepKeepsJudged(w: World, a: Action, n: nat, mayTurn: bool, checkpoint: bool)
    requires InBounds(w, n) && Judged(w, n, checkpoint) && Enabled(w, a, mayTurn)
    ensures Judged(Next(w, a, mayTurn, checkpoint), n, checkpoint)
  {
    var w' := Next(w, a, mayTurn, checkpoint);
    assert forall i :: 0 <= i < n && Resolved(w, i) && w.phase != Third(i) && w.phase != Held(i) ==> Resolved(w', i);
  }

  lemma {:induction false} RunKeeps(run: seq<World>, n: nat, mayTurn: bool, checkpoint: bool)
    requires IsRun(run, n, mayTurn, checkpoint)
    ensures Inv(run[|run| - 1], n, mayTurn, checkpoint)
  {
    if |run| > 1 {
      var w, w' := run[|run| - 2], run[|run| - 1];
      hide Init, InBounds, Undisturbed, Caught, Judged, Enabled, Next;
      RunKeeps(run[..|run| - 1], n, mayTurn, checkpoint);
      var a :| IsStep(w, a, w', mayTurn, checkpoint);
      StepKeepsBounds(w, a, n, mayTurn, checkpoint);
      StepKeepsUndisturbed(w, a, n, mayTurn, checkpoint);
      StepKeepsCaught(w, a, n, mayTurn, checkpoint);
      StepKeepsJudged(w, a, n, mayTurn, checkpoint);
    }
  }

  // ---------------------------------------------------------------- theorems

  /** Once both scans have seen only on-disk or deleted children, no cursor is left inside. */
  lemma NoCursorLeft(w: World, n: nat, checkpoint: bool)
    requires Reachable(w, n, false, checkpoint) && Scanned(w.phase)
    ensures w.cursors == map[]
  {
    var run :| IsRun(run, n, false, checkpoint) && run[|run| - 1] == w;
    RunKeeps(run, n, false, checkpoint);
    assert forall c :: c !in w.cursors;
  }

  /** Whatever the outcome, the check has changed no child's state. */
  lemma StatesAsFound(w: World, n: nat, mayTurn: bool, checkpoint: bool)
    requires Reachable(w, n, mayTurn, checkpoint) && !w.phase.Held?
    ensures w.states == w.theirs
  {
    var run :| IsRun(run, n, mayTurn, checkpoint) && run[|run| - 1] == w;
    RunKeeps(run, n, mayTurn, checkpoint);
  }

  /** Outside checkpoint readers, a check that passes has seen every child either on disk or deleted by
      a truncation that can no longer be undone for it. */
  lemma PassedResolved(w: World, n: nat, mayTurn: bool)
    requires Reachable(w, n, mayTurn, false) && w.phase.Passed?
    ensures forall i :: 0 <= i < n ==> Resolved(w, i)
  {
    var run :| IsRun(run, n, mayTurn, false) && run[|run| - 1] == w;
    RunKeeps(run, n, mayTurn, false);
  }

  // ---------------------------------------------------------------- a check that nobody disturbs

  /** The step the check itself takes next, told of child `i` that its truncation is `settled[i]`. */
  function Own(w: World, settled: seq<bool>): Action
    requires |settled| == |w.states| && (w.phase.Held? ==> w.phase.k < |w.states|)
  {
    if w.phase.Trying? then Swap else if w.phase.Held? then Decide(settled[w.phase.k]) else Look
  }

  /** What is still asked of the children from where the check stands. */
  ghost predicate StillFine(w: World, settled: seq<bool>, checkpoint: bool)
    requires |settled| == |w.states|
  {
    && !w.phase.Busy? && (w.phase.Trying? ==> w.phase.k < |w.states| && w.states[w.phase.k].Deleted?)
    && (w.phase.Fwd? ==> forall i :: 0 <= i < |w.states| ==> Quiet(w.states[i]))
    && (w.phase.Bwd? ==> forall i :: 0 <= i < |w.states| && i < w.phase.k ==> Quiet(w.states[i]))
    && (!w.phase.Passed? && !checkpoint ==>
          forall i :: 0 <= i < |w.states| && (w.phase.Fwd? || w.phase.Bwd? || w.phase.k <= i) ==>
            w.states[i].Disk? || (w.states[i].Deleted? && settled[i]) || (w.states[i].Ours? && w.phase.Held? && settled[i]))
  }

  predicate Finished(w: World) {
    w.phase.Passed? || w.phase.Busy?
  }

  /** How far from the end the check is. */
  function Left(w: World): (int, int) {
    var n := |w.states|;
    match w.phase
    case Fwd(k) => (2, n - k)
    case Bwd(k) => (1, k)
    case Third(k) => (0, 3 * (n - k) + 1)
    case Trying(k) => (0, 3 * (n - k))
    case Held(k) => (0, 3 * (n - k) - 1)
    case Passed => (0, 0)
    case Busy => (0, 0)
  }

  ghost predicate Ready(w: World, n: nat, settled: seq<bool>, checkpoint: bool) {
    InBounds(w, n) && Undisturbed(w) && |settled| == n && (checkpoint && Scanned(w.phase) ==> Finished(w))
  }

  lemma OwnStep(w: World, n: nat, settled: seq<bool>, checkpoint: bool)
    requires Ready(w, n, settled, checkpoint) && !Finished(w)
    ensures Enabled(w, Own(w, settled), false)
    ensures var w' := Next(w, Own(w, settled), false, checkpoint);
      && Ready(w', n, settled, checkpoint) && w'.theirs == w.theirs && w'.cursors == w.cursors
      && (Left(w').0 < Left(w).0 || (Left(w').0 == Left(w).0 && 0 <= Left(w').1 < Left(w).1) || Finished(w'))
  {
    var a := Own(w, settled);
    StepKeepsBounds(w, a, n, false, checkpoint);
    StepKeepsUndisturbed(w, a, n, false, checkpoint);
    hide InBounds, Undisturbed, Quiet;
  }

  /** The check takes its own steps to its end. */
  ghost function Finish(w: World, n: nat, settled: seq<bool>, checkpoint: bool): World
    requires Ready(w, n, settled, checkpoint)
    decreases if Finished(w) then -1 else Left(w).0, Left(w).1
  {
    if Finished(w) then w
    else OwnStep(w, n, settled, checkpoint); Finish(Next(w, Own(w, settled), false, checkpoint), n, settled, checkpoint)
  }

  lemma LookFine(w: World, n: nat, settled: seq<bool>, checkpoint: bool)
    requires InBounds(w, n) && Undisturbed(w) && |settled| == n && (checkpoint ==> !Scanned(w.phase))
    requires w.phase.Fwd? || w.phase.Bwd? || w.phase.Third?
    ensures var w' := Next(w, Look, false, checkpoint); |w'.states| == n && (StillFine(w', settled, checkpoint) <==> StillFine(w, settled, checkpoint))
  {
  }

  lemma HoldFine(w: World, n: nat, settled: seq<bool>)
    requires InBounds(w, n) && Undisturbed(w) && |settled| == n && (w.phase.Trying? || w.phase.Held?)
    ensures var w' := Next(w, Own(w, settled), false, false); |w'.states| == n && (StillFine(w', settled, false) <==> StillFine(w, settled, false))
  {
    var k, w' := w.phase.k, Next(w, Own(w, settled), false, false);
    assert w.states[k].Disk? || w.states[k].Ours? || w.states[k] == w'.states[k] || w'.states[k].Ours?;
    assert forall i :: 0 <= i < n && i != k ==> w'.states[i] == w.states[i];
  }

  lemma {:induction false} Alone(w: World, n: nat, settled: seq<bool>, checkpoint: bool)
    requires Ready(w, n, settled, checkpoint)
    ensures var w' := Finish(w, n, settled, checkpoint);
      && Finished(w') && (w'.phase.Passed? <==> StillFine(w, settled, checkpoint))
      && w'.states == w'.theirs == w.theirs && w'.cursors == w.cursors
    decreases if Finished(w) then -1 else Left(w).0, Left(w).1
  {
    if !Finished(w) {
      if w.phase.Trying? || w.phase.Held? {
        HoldFine(w, n, settled);
      } else {
        LookFine(w, n, settled, checkpoint);
      }
      OwnStep(w, n, settled, checkpoint);
      hide InBounds, StillFine, Left, Undisturbed, Next;
      Alone(Next(w, Own(w, settled), false, checkpoint), n, settled, checkpoint);
    }
  }

  /** Left alone from the start, the check passes exactly when every child is on disk or deleted and,
      outside checkpoint readers, every truncation is settled; the children stay as they are. */
  lemma PassesAlone(w: World, n: nat, settled: seq<bool>, checkpoint: bool)
    requires Init(w, n) && |settled| == n
    ensures Ready(w, n, settled, checkpoint)
    ensures var w' := Finish(w, n, settled, checkpoint);
      && Finished(w') && w'.states == w.states
      && (w'.phase.Passed? <==> (forall i :: 0 <= i < n ==> w.states[i].Disk? || (w.states[i].Deleted? && (checkpoint || settled[i]))))
  {
    Alone(w, n, settled, checkpoint);
  }

  ghost predicate AlwaysEmpty(n: nat, mayTurn: bool, checkpoint: bool) {
    forall w :: Reachable(w, n, mayTurn, checkpoint) && Scanned(w.phase) ==> w.cursors == map[]
  }

  lemma ReachableNext(w: World, a: Action, n: nat, checkpoint: bool) returns (w': World)
    requires Reachable(w, n, true, checkpoint) && |w.states| == |w.theirs| && Enabled(w, a, true)
    ensures w' == Next(w, a, true, checkpoint) && Reachable(w', n, true, checkpoint)
  {
    hide Enabled, Next, Init;
    var run :| IsRun(run, n, true, checkpoint) && run[|run| - 1] == w;
    w' := Next(w, a, true, checkpoint);
    var run' := run + [w'];
    assert run'[..|run'| - 1] == run;
    assert IsStep(w, a, w', true, checkpoint);
    assert IsRun(run', n, true, checkpoint);
  }

  lemma {:induction false} RestOfForwardPass(w: World, n: nat, checkpoint: bool) returns (w': World)
    requires Reachable(w, n, true, checkpoint) && |w.states| == n == |w.theirs| && w.phase.Fwd? && w.phase.k <= n
    requires forall i :: w.phase.k <= i < n ==> w.states[i].Disk?
    ensures w' == w.(phase := Bwd(n)) && Reachable(w', n, true, checkpoint)
    decreases n - w.phase.k
  {
    w' := ReachableNext(w, Look, n, checkpoint);
    if w.phase.k < n {
      w' := RestOfForwardPass(w', n, checkpoint);
    }
  }

  lemma {:induction false} BackwardPassTo1(w: World, n: nat, checkpoint: bool) returns (w': World)
    requires Reachable(w, n, true, checkpoint) && |w.states| == n == |w.theirs| && w.phase.Bwd? && 1 <= w.phase.k <= n
    requires forall i :: 1 <= i < n ==> w.states[i].Disk?
    ensures w' == w.(phase := Bwd(1)) && Reachable(w', n, true, checkpoint)
    decreases w.phase.k
  {
    if w.phase.k == 1 {
      w' := w;
    } else {
      w' := ReachableNext(w, Look, n, checkpoint);
      w' := BackwardPassTo1(w', n, checkpoint);
    }
  }

  lemma Started(n: nat, checkpoint: bool) returns (w: World)
    requires n >= 2
    ensures Reachable(w, n, true, checkpoint)
    ensures |w.states| == n && w.theirs == w.states && w.phase == Fwd(0) && w.cursors == map[0 := Cursor(false, 1)]
    ensures forall i :: 0 <= i < n ==> w.states[i] == if i == 1 then Mem else Disk
  {
    var states := seq(n, i => if i == 1 then Mem else Disk);
    w := World(states, map[0 := Cursor(false, 1)], Fwd(0), states, map[], map[]);
    assert IsRun([w], n, true, checkpoint) && [w][|[w]| - 1] == w;
  }

  /** A cursor that turns round between the passes dodges both. */
  lemma DodgesBothPasses(n: nat, checkpoint: bool) returns (w: World)
    requires n >= 2
    ensures Reachable(w, n, true, checkpoint) && Scanned(w.phase) && 0 in w.cursors
  {
    hide Reachable;
    w := Started(n, checkpoint);
    w := ReachableNext(w, Look, n, checkpoint);
    w := ReachableNext(w, Hop(0, 0), n, checkpoint);
    w := ReachableNext(w, Change(1, Disk), n, checkpoint);
    w := RestOfForwardPass(w, n, checkpoint);
    w := BackwardPassTo1(w, n, checkpoint);
    w := ReachableNext(w, Turn(0), n, checkpoint);
    w := ReachableNext(w, Hop(0, 1), n, checkpoint);
    w := ReachableNext(w, Change(0, Disk), n, checkpoint);
    w := ReachableNext(w, Look, n, checkpoint);
    w := ReachableNext(w, Look, n, checkpoint);
  }

  /** The two passes suffice exactly when no cursor may turn round, or there is no room to. */
  lemma EmptyExactlyWhen(n: nat, mayTurn: bool, checkpoint: bool)
    ensures AlwaysEmpty(n, mayTurn, checkpoint) <==> !mayTurn || n < 2
  {
    if !mayTurn || n < 2 {
      forall w | Reachable(w, n, mayTurn, checkpoint) && Scanned(w.phase) ensures w.cursors == map[] {
        var run :| IsRun(run, n, mayTurn, checkpoint) && run[|run| - 1] == w;
        RunKeeps(run, n, mayTurn, checkpoint);
        assert forall c :: c !in w.cursors;
      }
    } else {
      var w := DodgesBothPasses(n, checkpoint);
      assert w.cursors != map[];
    }
  }

  // ---------------------------------------------------------------- the passes themselves

  /** Visibility of a truncation; a null one was already found visible to everybody. */
  datatype PageDel = PageDel(committed: bool, visible: bool, visibleAll: bool)

  datatype Session = Session(readingCheckpoint: bool, hasSnapshot: bool, isEviction: bool)

  predicate Settled(del: Option<PageDel>, session: Session) {
    del.Some? ==>
      && del.value.committed
      && (session.hasSnapshot ==> del.value.visible)
      && (!session.hasSnapshot && !session.isEviction ==> del.value.visibleAll)
  }

  /** Child `i` is no obstacle to the third pass when it looks. */
  predicate Discardable(s: ChildState, raced: bool, del: Option<PageDel>, session: Session) {
    s.Disk? || (s.Deleted? && !raced && Settled(del, session))
  }

  /** The three passes.  `moments[t]` is what the other threads have made of the states when the check
      looks for the `t`-th time; `raced` are the children somebody reads between the third look at
      them and the swap.  Every look counts, at its own moment, and nothing is changed. */
  method Check(states: array<ChildState>, moments: seq<seq<ChildState>>, dels: seq<Option<PageDel>>, session: Session, raced: set<nat>)
    returns (ok: bool, looks: nat)
    requires |dels| == states.Length && |moments| == 3 * states.Length
    requires forall t :: 0 <= t < |moments| ==> |moments[t]| == states.Length
    modifies states
    ensures looks <= |moments| && states[..] == if looks == 0 then old(states[..]) else moments[looks - 1]
    ensures ok <==>
      && (forall t :: 0 <= t < states.Length ==> Quiet(moments[t][t]))
      && (forall t :: states.Length <= t < 2 * states.Length ==> Quiet(moments[t][2 * states.Length - 1 - t]))
      && (session.readingCheckpoint ||
          forall t :: 2 * states.Length <= t < 3 * states.Length ==>
            var i := t - 2 * states.Length;
            moments[t][i].Disk?
            || (moments[t][i].Deleted? && i !in raced
                && (dels[i].Some? ==>
                      && dels[i].value.committed
                      && (session.hasSnapshot ==> dels[i].value.visible)
                      && (!session.hasSnapshot && !session.isEviction ==> dels[i].value.visibleAll))))
  {
    hide Quiet;
    var n, scans := states.Length, moments[..2 * states.Length];
    assert forall t :: 0 <= t < 2 * n ==> scans[t] == moments[t];
    ok, looks := NoCursors(states, scans);
    if !ok || session.readingCheckpoint {
      return;
    }
    for k := 0 to n
      invariant ok && looks == 2 * n + k && states[..] == if looks == 0 then old(states[..]) else moments[looks - 1]
      invariant forall t :: 2 * n <= t < looks ==> Discardable(moments[t][t - 2 * n], t - 2 * n in raced, dels[t - 2 * n], session)
    {
      var s := LookAt(states, k, moments[looks]);
      looks := looks + 1;
      ok := Judge(states, k, k in raced, dels[k], session);
      if !ok {
        return;
      }
    }
  }

  /** The two scans for cursors. */
  method NoCursors(states: array<ChildState>, moments: seq<seq<ChildState>>) returns (ok: bool, looks: nat)
    requires |moments| == 2 * states.Length && forall t :: 0 <= t < |moments| ==> |moments[t]| == states.Length
    modifies states
    ensures looks <= |moments| && states[..] == if looks == 0 then old(states[..]) else moments[looks - 1]
    ensures ok ==> looks == |moments|
    ensures ok <==>
      && (forall t :: 0 <= t < states.Length ==> Quiet(moments[t][t]))
      && (forall t :: states.Length <= t < 2 * states.Length ==> Quiet(moments[t][2 * states.Length - 1 - t]))
  {
    hide Quiet;
    var n := states.Length;
    ok, looks := false, 0;
    for k := 0 to n
      invariant looks == k && states[..] == if looks == 0 then old(states[..]) else moments[looks - 1]
      invariant forall t :: 0 <= t < k ==> Quiet(moments[t][t])
    {
      var s := LookAt(states, k, moments[looks]);
      looks := looks + 1;
      if !Quiet(s) {
        return;
      }
    }
    for k := n downto 0
      invariant looks == 2 * n - k && states[..] == if looks == 0 then old(states[..]) else moments[looks - 1]
      invariant forall t :: n <= t < looks ==> Quiet(moments[t][2 * n - 1 - t])
    {
      var s := LookAt(states, k, moments[looks]);
      looks := looks + 1;
      if !Quiet(s) {
        return;
      }
    }
    ok := true;
  }

  /** One turn of the third pass.  The child is held while its truncation is looked at. */
  method Judge(states: array<ChildState>, k: nat, raced: bool, del: Option<PageDel>, session: Session) returns (clear: bool)
    requires k < states.Length
    modifies states
    ensures states[..] == old(states[..])
    ensures clear <==> Discardable(old(states[k]), raced, del, session)
  {
    match states[k] {
      case Disk =>
        clear := true;
      case Deleted =>
        ghost var was := states[..];
        if raced {
          return false;
        }
        states[k] := Ours;
        clear := Visible(del, session);
        states[k] := Deleted;
        assert states[..] == was;
      case _ =>
        clear := false;
    }
  }

  /** Look at one child, other threads having left the states as they are `now`. */
  method LookAt(states: array<ChildState>, k: nat, now: seq<ChildState>) returns (s: ChildState)
    requires k < states.Length == |now|
    modifies states
    ensures states[..] == now && s == now[k]
  {
    for i := 0 to states.Length
      invariant states[..i] == now[..i]
    {
      states[i] := now[i];
    }
    s := states[k];
  }

  /** The cascade of questions asked about one truncation. */
  function Visible(del: Option<PageDel>, session: Session): (v: bool)
    ensures v <==> Settled(del, session)
  {
    if del.Some? && !del.value.committed then false
    else if session.hasSnapshot then del.None? || del.value.visible
    else if session.isEviction then true
    else del.None? || del.value.visibleAll
  }
}
