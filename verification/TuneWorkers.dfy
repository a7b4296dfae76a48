/** Choosing the number of eviction workers: add one per period while throughput keeps up, then settle
    on the best number seen. */
module TuneWorkers {
  const TUNE_BATCH: nat := 1
  const DATAPT_MIN: nat := 8
  const TUNE_PERIOD: nat := 60
  const FORCE_RETUNE: nat := 25000
  const TWO64: nat := 0x1_0000_0000_0000_0000

  /** Times are in milliseconds.  `min` and `max` bound the thread group. */
  datatype State = State(
    min: nat, max: nat, workers: nat,
    stable: bool,
    lastTime: nat, lastAction: nat, progressLast: nat,
    points: nat, needed: nat, rateMax: nat, best: nat)

  /** What a call finds: the time, the pages evicted so far, and whether eviction is wanted. */
  datatype Tick = Tick(now: nat, progress: nat, wanted: bool)

  predicate IsState(s: State) {
    s.min <= s.workers <= s.max
  }

  function Min(a: int, b: int): int {
    if a < b then a else b
  }

  function Max(a: int, b: int): int {
    if a < b then b else a
  }

  /** Stopping workers one by one never goes below the group's minimum. */
  function Stopped(s: State, surplus: int): (n: nat)
    requires IsState(s)
    ensures s.min <= n <= s.workers
  {
    if surplus <= 0 then s.workers else Max(s.min, s.workers - surplus)
  }

  /** Evicted pages per second since the last measurement, in 64-bit arithmetic. */
  function Rate(s: State, t: Tick): nat
    requires t.now > s.lastTime
  {
    ((((t.progress - s.progressLast) % TWO64) * 1000) % TWO64) / (t.now - s.lastTime)
  }

  function Recorded(s: State, t: Tick): State {
    s.(lastTime := t.now, progressLast := t.progress)
  }

  /** What a new rate makes of the tuning: go on, ask for more points, or settle on the best number. */
  function Judged(s: State, rate: nat): (s': State)
    requires IsState(s)
    ensures IsState(s')
  {
    var s1 := s.(points := s.points + 1,
                 rateMax := if rate > s.rateMax then rate else s.rateMax,
                 best := if rate > s.rateMax then s.workers else s.best);
    if s1.points < s1.needed then s1
    else if s1.best == s1.workers && s1.workers < s1.max
    then s1.(needed := s1.needed + Min(DATAPT_MIN, (s1.max - s1.workers) / TUNE_BATCH))
    else s1.(workers := Stopped(s1, s1.workers - s1.best), stable := true)
  }

  /** Add a worker if eviction is wanted. */
  function Grown(s: State, t: Tick): State
    requires IsState(s)
  {
    var s1 := if s.lastAction / 1000 == 0 then s.(needed := DATAPT_MIN) else s;
    if t.wanted then s1.(workers := Max(s1.workers, Min(s1.workers + TUNE_BATCH, s1.max)), lastAction := t.now) else s1
  }

  /** A call that measures a rate. */
  function Measured(s: State, t: Tick): State
    requires IsState(s) && !s.stable && t.now > s.lastTime
  {
    var j := Judged(s, Rate(s, t));
    Recorded(if j.stable then j else Grown(j, t), t)
  }

  function Retuned(s: State): State
    requires IsState(s)
  {
    s.(stable := false, lastAction := 0, progressLast := 0, points := 0, rateMax := 0,
       workers := Stopped(s, if s.workers - s.min > 0 then 1 else 0))
  }

  /** One call of the tuner. */
  function Ticked(s: State, t: Tick): (s': State)
    requires IsState(s) && t.now >= s.lastTime
  {
    if s.max == s.min then s
    else if s.stable then (if t.now - s.lastTime < FORCE_RETUNE then s else Recorded(Retuned(s), t))
    else if t.now - s.lastTime < TUNE_PERIOD then s
    else if s.progressLast == 0 then Recorded(s, t)
    else Measured(s, t)
  }

  // ---------------------------------------------------------------- the program

  class Tuner {
    const min: nat
    const max: nat
    var workers: nat
    var stable: bool
    var lastTime: nat
    var lastAction: nat
    var progressLast: nat
    var points: nat
    var needed: nat
    var rateMax: nat
    var best: nat

    constructor (min: nat, max: nat)
      requires min <= max
      ensures Abs() == State(min, max, min, false, 0, 0, 0, 0, 0, 0, 0)
    {
      this.min, this.max, workers := min, max, min;
      stable, lastTime, lastAction, progressLast, points, needed, rateMax, best := false, 0, 0, 0, 0, 0, 0, 0;
    }

    function Abs(): State
      reads this
    {
      State(min, max, workers, stable, lastTime, lastAction, progressLast, points, needed, rateMax, best)
    }

    method StopOne()
      modifies this`workers
      ensures workers == if old(workers) > min then old(workers) - 1 else old(workers)
    {
      if workers <= min {
        return;
      }
      workers := workers - 1;
    }

    method StartOne()
      modifies this`workers
      ensures workers == if old(workers) < max then old(workers) + 1 else old(workers)
    {
      if workers >= max {
        return;
      }
      workers := workers + 1;
    }

    /** One call.  The worker count stays within the group's bounds, and no rate is taken over an
        empty interval. */
    method Tick(t: Tick)
      requires IsState(Abs()) && t.now >= lastTime
      modifies this
      ensures IsState(Abs()) && Abs() == Ticked(old(Abs()), t)
    {
      hide Rate;
      if max == min {
        return;
      }
      var timeDiff := t.now - lastTime;
      if stable {
        if timeDiff < FORCE_RETUNE {
          return;
        }
        stable, lastAction, progressLast, points, rateMax := false, 0, 0, 0, 0;
        if workers - min > 0 {
          StopOne();
        }
      } else if timeDiff < TUNE_PERIOD {
        return;
      }
      if progressLast == 0 {
        lastTime, progressLast := t.now, t.progress;
        return;
      }
      Measure(t);
    }

    /** Take a rate and act on it. */
    method Measure(t: Tick)
      requires IsState(Abs()) && !stable && t.now > lastTime
      modifies this
      ensures IsState(Abs()) && Abs() == Measured(old(Abs()), t)
    {
      hide Rate, Judged;
      var rate := MeasureRate(t);
      Judge(rate);
      if !stable {
        Grow(t);
      }
      lastTime, progressLast := t.now, t.progress;
    }

    method Judge(rate: nat)
      requires IsState(Abs())
      modifies this
      ensures Abs() == Judged(old(Abs()), rate)
    {
      points := points + 1;
      if rate > rateMax {
        rateMax, best := rate, workers;
      }
      if points >= needed {
        if best == workers && workers < max {
          needed := needed + Min(DATAPT_MIN, (max - workers) / TUNE_BATCH);
        } else {
          Shed(workers - best);
          stable := true;
        }
      }
    }

    method Grow(t: Tick)
      requires IsState(Abs())
      modifies this`needed, this`workers, this`lastAction
      ensures Abs() == Grown(old(Abs()), t)
    {
      if lastAction / 1000 == 0 {
        needed := DATAPT_MIN;
      }
      if t.wanted {
        AddTo(Min(workers + TUNE_BATCH, max));
        lastAction := t.now;
      }
    }

    method MeasureRate(t: Tick) returns (rate: nat)
      requires t.now > lastTime
      ensures rate == Rate(Abs(), t)
    {
      var deltaMsec := t.now - lastTime;
      var deltaPages := (t.progress - progressLast) % TWO64;
      rate := ((deltaPages * 1000) % TWO64) / deltaMsec;
    }

    method Shed(surplus: int)
      requires IsState(Abs())
      modifies this`workers
      ensures workers == Stopped(old(Abs()), surplus)
    {
      var i: int := 0;
      ghost var was := workers;
      while i < surplus
        invariant 0 <= i && (i <= surplus || i == 0) && workers == Max(min, was - i)
        decreases surplus - i
      {
        StopOne();
        i := i + 1;
      }
    }

    method AddTo(target: int)
      requires IsState(Abs()) && target <= max
      modifies this`workers
      ensures workers == Max(old(workers), target)
    {
      var i := workers;
      ghost var was := workers;
      while i < target
        invariant i == workers && was <= i && (i <= target || i == was)
        decreases target - i
      {
        StartOne();
        i := i + 1;
      }
    }
  }

  // ---------------------------------------------------------------- runs

  predicate InOrder(s: State, ticks: seq<Tick>)
    requires IsState(s)
    decreases |ticks|
  {
    ticks == [] || (ticks[0].now >= s.lastTime && InOrder(Next(s, ticks[0]), ticks[1..]))
  }

  function Next(s: State, t: Tick): (s': State)
    requires IsState(s) && t.now >= s.lastTime
    ensures IsState(s') && s'.min == s.min && s'.max == s.max
  {
    Ticked(s, t)
  }

  function Run(s: State, ticks: seq<Tick>): (s': State)
    requires IsState(s) && InOrder(s, ticks)
    ensures IsState(s') && s'.min == s.min && s'.max == s.max
    decreases |ticks|
  {
    if ticks == [] then s else Run(Next(s, ticks[0]), ticks[1..])
  }

  /** Some call of the run leaves the tuner stable. */
  predicate Settles(s: State, ticks: seq<Tick>)
    requires IsState(s) && InOrder(s, ticks)
    decreases |ticks|
  {
    s.stable || (ticks != [] && Settles(Next(s, ticks[0]), ticks[1..]))
  }

  /** Every call comes a full period after the last measurement and finds eviction wanted and at
      least one page evicted. */
  predicate Wanted(s: State, ticks: seq<Tick>)
    requires IsState(s) && InOrder(s, ticks)
    decreases |ticks|
  {
    ticks == [] ||
    (var t := ticks[0];
     && t.now >= s.lastTime + TUNE_PERIOD && t.now >= 1000 && t.progress > 0 && t.wanted
     && Wanted(Next(s, t), ticks[1..]))
  }

  /** Most rates a tuning that starts with `workers` workers measures. */
  function Bound(s: State): nat {
    Max(DATAPT_MIN, s.max - s.workers + 1)
  }

  /** Tuning under way: `n` rates measured since it began with `start` workers. */
  predicate Climbing(s: State, start: nat, n: nat) {
    && !s.stable && s.min < s.max && s.progressLast > 0 && s.lastAction >= 1000
    && s.points == n && 1 <= n < s.needed <= Max(DATAPT_MIN, s.max - start + 1)
    && s.workers == Min(s.max, start + n)
  }

  lemma OneMore(s: State, start: nat, n: nat, t: Tick)
    requires IsState(s) && Climbing(s, start, n) && start <= s.max
    requires t.now >= s.lastTime + TUNE_PERIOD && t.now >= 1000 && t.progress > 0 && t.wanted
    ensures Next(s, t).stable || Climbing(Next(s, t), start, n + 1)
  {
    hide Rate;
  }

  lemma {:induction false} ClimbEnds(s: State, start: nat, n: nat, ticks: seq<Tick>)
    requires IsState(s) && InOrder(s, ticks) && Wanted(s, ticks) && Climbing(s, start, n) && start <= s.max
    requires |ticks| >= Max(DATAPT_MIN, s.max - start + 1) - n
    ensures Settles(s, ticks)
    decreases |ticks|
  {
    hide Ticked, Climbing;
    assert ticks != [] by { NotYet(s, start, n); }
    OneMore(s, start, n, ticks[0]);
    if !Next(s, ticks[0]).stable {
      ClimbEnds(Next(s, ticks[0]), start, n + 1, ticks[1..]);
    }
  }

  lemma NotYet(s: State, start: nat, n: nat)
    requires Climbing(s, start, n)
    ensures n < Max(DATAPT_MIN, s.max - start + 1)
  {
  }

  /** A tuning about to begin: at start-up, or after a forced retune. */
  predicate Fresh(s: State) {
    !s.stable && s.min < s.max && s.points == 0 && s.lastAction / 1000 == 0
  }

  lemma FirstMeasure(s: State, t: Tick)
    requires IsState(s) && Fresh(s) && s.progressLast > 0
    requires t.now >= s.lastTime + TUNE_PERIOD && t.now >= 1000 && t.progress > 0 && t.wanted
    ensures Next(s, t).stable || Climbing(Next(s, t), s.workers, 1)
  {
    hide Rate;
  }

  /** Wanted at every call, the tuner settles after one call that only records the progress and at
      most max(8, max - workers + 1) that measure. */
  lemma SettlesInTime(s: State, ticks: seq<Tick>)
    requires IsState(s) && InOrder(s, ticks) && Wanted(s, ticks) && Fresh(s)
    requires |ticks| >= 1 + Bound(s)
    ensures Settles(s, ticks)
  {
    var s1, rest := Next(s, ticks[0]), ticks[1..];
    if s.progressLast == 0 {
      assert s1 == Recorded(s, ticks[0]);
      FirstThenClimb(s1, rest);
    } else {
      FirstThenClimb(s, ticks);
    }
  }

  lemma FirstThenClimb(s: State, ticks: seq<Tick>)
    requires IsState(s) && InOrder(s, ticks) && Wanted(s, ticks) && Fresh(s) && s.progressLast > 0
    requires |ticks| >= Bound(s)
    ensures Settles(s, ticks)
  {
    FirstMeasure(s, ticks[0]);
    hide Ticked, Climbing, Fresh;
    var s1 := Next(s, ticks[0]);
    if !s1.stable {
      ClimbEnds(s1, s.workers, 1, ticks[1..]);
    }
  }

  /** A stable tuner starts afresh once the retune period has passed, with one worker fewer. */
  lemma RetuneIsFresh(s: State, t: Tick)
    requires IsState(s) && s.min < s.max && s.stable && t.now >= s.lastTime
    ensures t.now - s.lastTime < FORCE_RETUNE ==> Next(s, t) == s
    ensures t.now - s.lastTime >= FORCE_RETUNE ==>
      Fresh(Next(s, t)) && Next(s, t).workers == Max(s.min, s.workers - 1) && Next(s, t).rateMax == 0
  {
  }

  /** While tuning, nothing happens within a period of the last measurement or where the group cannot
      grow; otherwise measuring goes on from this call, and where no progress was recorded yet that is
      all. */
  lemma TickRecords(s: State, t: Tick)
    requires IsState(s) && t.now >= s.lastTime && !s.stable
    ensures Next(s, t) == s || (Next(s, t).lastTime == t.now && Next(s, t).progressLast == t.progress)
    ensures s.min == s.max || t.now - s.lastTime < 60 ==> Next(s, t) == s
    ensures s.min < s.max && t.now - s.lastTime >= 60 ==> Next(s, t).lastTime == t.now && Next(s, t).progressLast == t.progress
    ensures s.progressLast == 0 ==> Next(s, t).(lastTime := s.lastTime, progressLast := 0) == s
  {
    hide Rate;
  }

  // ---------------------------------------------------------------- the best number of workers

  datatype Point = Point(rate: nat, workers: nat)

  predicate Measures(s: State, t: Tick)
    requires IsState(s) && t.now >= s.lastTime
  {
    s.min < s.max && !s.stable && t.now - s.lastTime >= TUNE_PERIOD && s.progressLast > 0
  }

  /** The rates measured over a run, each with the number of workers that gave it. */
  function History(s: State, ticks: seq<Tick>): seq<Point>
    requires IsState(s) && InOrder(s, ticks)
    decreases |ticks|
  {
    if ticks == [] then [] else NewPoint(s, ticks[0]) + History(Next(s, ticks[0]), ticks[1..])
  }

  function NewPoint(s: State, t: Tick): seq<Point>
    requires IsState(s) && t.now >= s.lastTime
  {
    if Measures(s, t) then [Point(Rate(s, t), s.workers)] else []
  }

  /** `best` is the number of workers at the first point with the highest rate. */
  ghost predicate IsBest(h: seq<Point>, rateMax: nat, best: nat) {
    && (forall i :: 0 <= i < |h| ==> h[i].rate <= rateMax)
    && (rateMax > 0 ==> exists i :: FirstBest(h, i, rateMax, best))
  }

  ghost predicate FirstBest(h: seq<Point>, i: nat, rateMax: nat, best: nat) {
    i < |h| && h[i] == Point(rateMax, best) && forall j :: 0 <= j < i ==> h[j].rate < rateMax
  }

  lemma OneMorePoint(h: seq<Point>, rateMax: nat, best: nat, p: Point)
    requires IsBest(h, rateMax, best)
    ensures IsBest(h + [p], if p.rate > rateMax then p.rate else rateMax, if p.rate > rateMax then p.workers else best)
  {
    var h' := h + [p];
    if p.rate > rateMax {
      assert FirstBest(h', |h|, p.rate, p.workers);
    } else if rateMax > 0 {
      var i :| FirstBest(h, i, rateMax, best);
      assert FirstBest(h', i, rateMax, best);
    }
  }

  /** Where a measuring call settles, it keeps the best number seen, if it has that many; otherwise it
      adds a worker if eviction is wanted.  A new tuning asks for eight points, and where the last of
      those asked for is the best so far, for up to eight more. */
  lemma MeasureKeepsBest(s: State, t: Tick)
    requires IsState(s) && t.now >= s.lastTime && Measures(s, t)
    ensures var s', p := Next(s, t), Point(Rate(s, t), s.workers);
      && s'.rateMax == (if p.rate > s.rateMax then p.rate else s.rateMax)
      && s'.best == (if p.rate > s.rateMax then p.workers else s.best)
      && (s'.stable ==> s'.workers == if s'.best < s.workers then Max(s.min, s'.best) else s.workers)
      && (s'.stable <==> s.points + 1 >= s.needed && (s'.best != s.workers || s.workers == s.max))
      && (!s'.stable ==> s'.workers == (if t.wanted && s.workers < s.max then s.workers + 1 else s.workers)
                         && s'.lastAction == (if t.wanted then t.now else s.lastAction))
      && (!s'.stable && s.lastAction < 1000 ==> s'.needed == 8)
      && (!s'.stable && s.lastAction >= 1000 ==>
            s'.needed == if s.points + 1 < s.needed then s.needed else if s.max - s.workers < 8 then s.needed + (s.max - s.workers) else s.needed + 8)
  {
    hide Rate;
  }

  /** As long as it has not been stable, the tuner knows the best point of its whole history. */
  lemma {:induction false} KnowsBest(s: State, h: seq<Point>, ticks: seq<Tick>)
    requires IsState(s) && InOrder(s, ticks) && IsBest(h, s.rateMax, s.best)
    requires Restless(s, ticks)
    ensures IsBest(h + History(s, ticks), Run(s, ticks).rateMax, Run(s, ticks).best)
    decreases |ticks|
  {
    hide IsBest, Rate;
    if ticks == [] {
      assert h + [] == h;
    } else {
      var t, s' := ticks[0], Next(s, ticks[0]);
      var p := NewPoint(s, t);
      if Measures(s, t) {
        MeasureKeepsBest(s, t);
        OneMorePoint(h, s.rateMax, s.best, p[0]);
      } else {
        assert h + p == h;
      }
      hide Ticked, Measures;
      KnowsBest(s', h + p, ticks[1..]);
      assert h + (p + History(s', ticks[1..])) == (h + p) + History(s', ticks[1..]);
    }
  }

  /** Every point was measured with a number of workers between the minimum and `most`. */
  ghost predicate Within(h: seq<Point>, min: nat, most: nat) {
    forall i :: 0 <= i < |h| ==> min <= h[i].workers <= most
  }

  /** A call that leaves the tuner restless stops no worker. */
  lemma RestlessGrows(s: State, t: Tick)
    requires IsState(s) && t.now >= s.lastTime && !s.stable
    ensures !Next(s, t).stable ==> Next(s, t).workers >= s.workers
    ensures Next(s, t).stable ==> Measures(s, t)
  {
    hide Rate;
  }

  /** The call that settles keeps the best number, which is one that was tried. */
  lemma SettlingCall(s: State, h: seq<Point>, t: Tick)
    requires IsState(s) && t.now >= s.lastTime && !s.stable && Next(s, t).stable
    requires IsBest(h, s.rateMax, s.best) && Within(h, s.min, s.workers)
    ensures var s', all := Next(s, t), h + NewPoint(s, t);
      && IsBest(all, s'.rateMax, s'.best)
      && (s'.rateMax > 0 ==> s'.workers == s'.best)
      && (s'.rateMax == 0 ==> s'.workers == Max(s.min, Min(s.best, s.workers)))
      && (s'.rateMax > 0 ==> s'.workers < s.workers || s.workers == s.max)
  {
    hide Rate, IsBest, Ticked;
    RestlessGrows(s, t);
    MeasureKeepsBest(s, t);
    var p := NewPoint(s, t)[0];
    OneMorePoint(h, s.rateMax, s.best, p);
    if Next(s, t).rateMax > 0 {
      BestWithin(h + [p], Next(s, t).rateMax, Next(s, t).best, s.min, s.workers);
    }
  }

  lemma BestWithin(h: seq<Point>, rateMax: nat, best: nat, min: nat, most: nat)
    requires IsBest(h, rateMax, best) && rateMax > 0 && Within(h, min, most)
    ensures min <= best <= most
  {
  }

  lemma {:induction false} SettlesWith(s: State, h: seq<Point>, ticks: seq<Tick>)
    requires IsState(s) && InOrder(s, ticks) && ticks != [] && Restless(s, ticks) && Run(s, ticks).stable
    requires IsBest(h, s.rateMax, s.best) && Within(h, s.min, s.workers)
    ensures var s', all := Run(s, ticks), h + History(s, ticks);
      && IsBest(all, s'.rateMax, s'.best)
      && (s'.rateMax > 0 ==> s'.workers == s'.best)
      && History(s, ticks) != [] && (s'.rateMax > 0 ==> all[|all| - 1].workers > s'.workers || s'.workers == s.max)
    decreases |ticks|
  {
    hide IsBest, Rate, Ticked;
    var t, s1, rest := ticks[0], Next(s, ticks[0]), ticks[1..];
    var p := NewPoint(s, t);
    if rest == [] {
      SettlingCall(s, h, t);
      RestlessGrows(s, t);
      assert p + [] == p && (h + p)[|h|].workers == s.workers;
    } else {
      RestlessGrows(s, t);
      KnowsBest(s, h, [t]);
      assert History(s1, []) == [] && p + [] == p;
      assert Run(s, [t]) == s1;
      SettlesWith(s1, h + p, rest);
      assert h + (p + History(s1, rest)) == (h + p) + History(s1, rest);
    }
  }

  /** What a measuring call goes by: the pages evicted since the last measurement, the time that took
      in milliseconds, and the workers that did it. */
  datatype Sample = Sample(pages: int, ms: nat, workers: nat)

  function NewSample(s: State, t: Tick): seq<Sample>
    requires IsState(s) && t.now >= s.lastTime
  {
    if Measures(s, t) then [Sample(t.progress - s.progressLast, t.now - s.lastTime, s.workers)] else []
  }

  function Samples(s: State, ticks: seq<Tick>): seq<Sample>
    requires IsState(s) && InOrder(s, ticks)
    decreases |ticks|
  {
    if ticks == [] then [] else NewSample(s, ticks[0]) + Samples(Next(s, ticks[0]), ticks[1..])
  }

  /** Time passed, the progress counter did not go back, and a thousand times its advance fits 64 bits. */
  predicate Fits(x: Sample) {
    x.ms > 0 && 0 <= x.pages && 1000 * x.pages < TWO64
  }

  /** `r` is the whole number of pages per second. */
  predicate PerSecond(x: Sample, r: nat) {
    r * x.ms <= 1000 * x.pages < (r + 1) * x.ms
  }

  /** The rate recorded for a sample is its whole number of pages per second. */
  lemma RateIs(s: State, t: Tick)
    requires IsState(s) && t.now >= s.lastTime && Measures(s, t) && Fits(NewSample(s, t)[0])
    ensures PerSecond(NewSample(s, t)[0], Rate(s, t))
    ensures forall r: nat :: PerSecond(NewSample(s, t)[0], r) ==> r == Rate(s, t)
  {
    var x := NewSample(s, t)[0];
    var a := 1000 * x.pages;
    assert (t.progress - s.progressLast) % TWO64 == x.pages;
    assert (x.pages * 1000) % TWO64 == a;
    Quotient(a, x.ms);
  }

  lemma Quotient(a: nat, d: nat)
    requires d > 0
    ensures (a / d) * d <= a < (a / d + 1) * d
    ensures forall r: nat :: r * d <= a < (r + 1) * d ==> r == a / d
  {
    assert a == d * (a / d) + a % d;
    forall r: nat | r * d <= a < (r + 1) * d ensures r == a / d {
      OneQuotient(d, r, a / d, a);
    }
  }

  lemma OneQuotient(d: nat, p: nat, q: nat, a: nat)
    requires d > 0 && p * d <= a < (p + 1) * d && q * d <= a < (q + 1) * d
    ensures p == q
  {
    if p < q {
      Multiplied(p + 1, q, d);
    } else if q < p {
      Multiplied(q + 1, p, d);
    }
  }

  lemma Multiplied(a: nat, b: nat, d: nat)
    requires a <= b
    ensures a * d <= b * d
  {
  }

  /** The points of the history are the samples' speeds and workers. */
  lemma {:induction false} SamplesMatch(s: State, ticks: seq<Tick>)
    requires IsState(s) && InOrder(s, ticks) && forall x :: x in Samples(s, ticks) ==> Fits(x)
    ensures var h, xs := History(s, ticks), Samples(s, ticks);
      |h| == |xs| && forall i :: 0 <= i < |h| ==> h[i].workers == xs[i].workers && PerSecond(xs[i], h[i].rate)
    decreases |ticks|
  {
    hide Rate, Ticked, PerSecond, Fits;
    if ticks != [] {
      var s1, rest := Next(s, ticks[0]), ticks[1..];
      assert forall x :: x in Samples(s1, rest) ==> x in Samples(s, ticks);
      SamplesMatch(s1, rest);
      if Measures(s, ticks[0]) {
        assert NewSample(s, ticks[0])[0] in Samples(s, ticks);
        RateIs(s, ticks[0]);
      }
    }
  }

  /** Sample `i` has the greatest whole number of pages per second and is the first to have it. */
  ghost predicate Fastest(xs: seq<Sample>, i: nat) {
    && i < |xs|
    && exists r: nat :: PerSecond(xs[i], r)
         && (forall j: nat, q: nat :: j < |xs| && PerSecond(xs[j], q) ==> q <= r)
         && (forall j: nat, q: nat :: j < i && PerSecond(xs[j], q) ==> q < r)
  }

  /** Some sample shows at least one page per second. */
  ghost predicate Evicted(xs: seq<Sample>) {
    exists x :: x in xs && 1000 * x.pages >= x.ms
  }

  lemma SpeedOnce(x: Sample, r: nat, q: nat)
    requires Fits(x) && PerSecond(x, r) && PerSecond(x, q)
    ensures r == q && (1000 * x.pages >= x.ms ==> r > 0)
  {
    OneQuotient(x.ms, r, q, 1000 * x.pages);
  }

  lemma BestIsFastest(h: seq<Point>, xs: seq<Sample>, rateMax: nat, best: nat)
    requires IsBest(h, rateMax, best) && Evicted(xs) && |h| == |xs|
    requires forall i :: 0 <= i < |h| ==> h[i].workers == xs[i].workers && PerSecond(xs[i], h[i].rate) && Fits(xs[i])
    ensures rateMax > 0 && exists i: nat :: Fastest(xs, i) && xs[i].workers == best
  {
    hide PerSecond, Fits;
    var x :| x in xs && 1000 * x.pages >= x.ms;
    var k :| 0 <= k < |xs| && xs[k] == x;
    SpeedOnce(x, h[k].rate, h[k].rate);
    var i :| FirstBest(h, i, rateMax, best);
    forall j: nat, q: nat | j < |xs| && PerSecond(xs[j], q) ensures q == h[j].rate {
      SpeedOnce(xs[j], q, h[j].rate);
    }
    assert Fastest(xs, i);
  }

  lemma NoneBest(best: nat)
    ensures IsBest([], 0, best)
  {
  }

  /** A tuning that settles ends with the number of workers that first gave the greatest whole number of
      pages per second, if there was eviction at all; and then it has gone on to more workers than that,
      or that is the maximum. */
  lemma SettlesOnBest(s: State, ticks: seq<Tick>)
    requires IsState(s) && s.rateMax == 0 && InOrder(s, ticks) && ticks != [] && Restless(s, ticks) && Run(s, ticks).stable
    requires forall x :: x in Samples(s, ticks) ==> Fits(x)
    ensures var xs, s' := Samples(s, ticks), Run(s, ticks);
      Evicted(xs) ==>
        && (exists i: nat :: Fastest(xs, i) && xs[i].workers == s'.workers)
        && (xs[|xs| - 1].workers > s'.workers || s'.workers == s.max)
  {
    hide History, Run, Restless, InOrder, Samples, Fits, PerSecond, Fastest, IsBest;
    var h, xs, s' := History(s, ticks), Samples(s, ticks), Run(s, ticks);
    NoneBest(s.best);
    SettlesWith(s, [], ticks);
    SamplesMatch(s, ticks);
    assert [] + h == h;
    if Evicted(xs) {
      BestIsFastest(h, xs, s'.rateMax, s'.best);
    }
  }

  /** A new tuning settles at its first measurement or not before eight of them. */
  lemma {:induction false} SettlesLate(s: State, n: nat, ticks: seq<Tick>)
    requires IsState(s) && InOrder(s, ticks) && ticks != [] && Restless(s, ticks) && Run(s, ticks).stable
    requires s.points == n && (n == 0 ==> s.lastAction / 1000 == 0) && (n > 0 ==> s.needed >= DATAPT_MIN)
    ensures n + |History(s, ticks)| == 1 || n + |History(s, ticks)| >= DATAPT_MIN
    decreases |ticks|
  {
    hide Rate;
    var s1 := Next(s, ticks[0]);
    if ticks[1..] != [] {
      SettlesLate(s1, n + |NewPoint(s, ticks[0])|, ticks[1..]);
    }
  }

  /** No call of the run finds the tuner stable. */
  predicate Restless(s: State, ticks: seq<Tick>)
    requires IsState(s) && InOrder(s, ticks)
    decreases |ticks|
  {
    ticks == [] || (!s.stable && Restless(Next(s, ticks[0]), ticks[1..]))
  }
}
