/** The vertical-sync clock of one display, and the scheduler that ticks every clock. */
module Vsync {
  import opened Base
  import opened Ordered

  const U64_MAX: u64 := U64_LIMIT - 1

  function SatAdd(a: u64, b: u64): u64 { if a + b < U64_LIMIT then a + b else U64_MAX }

  function SatMul(a: u64, b: u64): u64 { if a * b < U64_LIMIT then a * b else U64_MAX }

  function NextVsyncAfter(now: u64, phase: u64, period: u64): u64
    requires period > 0
  {
    if phase > now then phase
    else
      var periods: u64 := Periods(now - phase, period);
      SatAdd(phase, SatMul(SatAdd(periods, 1), period))
  }

  function Periods(late: u64, period: u64): (n: u64)
    requires period > 0
    ensures n * period <= late < n * period + period
  {
    assert late / period <= late;
    late / period
  }

  /** `t` is the phase plus a whole number `k` of periods. */
  ghost predicate OnGrid(phase: int, period: int, k: int, t: int) { k >= 0 && t == phase + k * period }

  /** `t` is the first grid point after `now`. */
  ghost predicate IsNext(now: u64, phase: u64, period: u64, t: int) {
    && t > now && (exists k :: OnGrid(phase, period, k, t))
    && forall k, u :: OnGrid(phase, period, k, u) && u > now ==> t <= u
  }

  /** The grid point the clock looks for, in unbounded arithmetic. */
  function Sought(now: u64, phase: u64, period: u64): int
    requires period > 0
  {
    if phase > now then phase else phase + (Periods(now - phase, period) + 1) * period
  }

  lemma SoughtIsNext(now: u64, phase: u64, period: u64)
    requires period > 0
    ensures IsNext(now, phase, period, Sought(now, phase, period))
    ensures Sought(now, phase, period) <= now + period || phase > now
  {
    var t := Sought(now, phase, period);
    if phase > now {
      assert OnGrid(phase, period, 0, t);
      forall k, u | OnGrid(phase, period, k, u) ensures t <= u { Grows(0, k, period); }
    } else {
      var n := Periods(now - phase, period);
      assert (n + 1) * period == n * period + period;
      assert OnGrid(phase, period, n + 1, t);
      forall k, u | OnGrid(phase, period, k, u) && u > now ensures t <= u {
        if k <= n { Grows(k, n, period); } else { Grows(n + 1, k, period); }
      }
    }
  }

  lemma Grows(a: int, b: int, period: int)
    requires a <= b && period > 0
    ensures a * period <= b * period
  {
    assert b * period - a * period == (b - a) * period;
    assert (b - a) * period >= 0;
  }

  /** The clock finds the first grid point after `now` exactly when that point fits 64 bits;
      otherwise it sticks at the largest 64-bit value. */
  lemma NextVsyncIsExact(now: u64, phase: u64, period: u64)
    requires period > 0
    ensures IsNext(now, phase, period, NextVsyncAfter(now, phase, period)) <==> Sought(now, phase, period) < U64_LIMIT
    ensures NextVsyncAfter(now, phase, period)
         == if Sought(now, phase, period) < U64_LIMIT then Sought(now, phase, period) else U64_MAX
  {
    SoughtIsNext(now, phase, period);
    var t, r := Sought(now, phase, period), NextVsyncAfter(now, phase, period);
    if phase <= now {
      var n := Periods(now - phase, period);
      Grows(n, n + 1, period);
      if n + 1 == U64_LIMIT {
        assert n * period <= now - phase < U64_LIMIT;
        assert period == 1 && t == phase + U64_LIMIT;
      }
    }
    if t >= U64_LIMIT {
      assert r < t;
      assert !IsNext(now, phase, period, r);
    }
  }

  /** At the end of the 64-bit range the promise fails: the answer is neither after `now`
      nor on the grid. */
  lemma SaturationBreaksTheClock()
    ensures NextVsyncAfter(U64_MAX, U64_MAX, 2) == U64_MAX
    ensures !IsNext(U64_MAX, U64_MAX, 2, NextVsyncAfter(U64_MAX, U64_MAX, 2))
  {
    NextVsyncIsExact(U64_MAX, U64_MAX, 2);
  }

  predicate PeriodsCompatible(a: u64, b: u64) {
    var distance := if a > b then a - b else b - a;
    distance <= if a / 100 > 1 then a / 100 else 1
  }

  /** Periods are compatible exactly when they differ by at most one nanosecond or one percent
      of the clock's own. */
  lemma CompatibleExactly(a: u64, b: u64)
    ensures PeriodsCompatible(a, b) <==> a - 1 <= b <= a + 1 || (100 * (a - b) <= a && 100 * (b - a) <= a)
  {
  }

  datatype Clock = Clock(period: u64, next: u64, phased: bool) {
    /** Tick when due: deliver the scheduled time, count what was missed, move on. */
    function Ticked(now: u64): Clock
      requires period > 0
    {
      if next <= now then this.(next := NextVsyncAfter(now, next, period)) else this
    }

    function Skipped(now: u64): nat
      requires period > 0 && next <= now
    {
      Periods(now - next, period)
    }

    function Observed(now: u64, timestamp: u64, p: u64): Clock
      requires period > 0
    {
      if !phased && PeriodsCompatible(period, p) then Clock(period, NextVsyncAfter(now, timestamp, period), true) else this
    }
  }

  function Start(now: u64, period: u64, phase: Option<(u64, u64)>): Clock
    requires period > 0
  {
    if phase.Some? && PeriodsCompatible(period, phase.value.1)
    then Clock(period, NextVsyncAfter(now, phase.value.0, period), true)
    else Clock(period, SatAdd(now, period), false)
  }

  /** A clock started on a compatible phase ticks first at the first grid point after now;
      without one it ticks one period from now and waits for a sample. */
  lemma StartFollowsThePhase(now: u64, period: u64, phase: Option<(u64, u64)>)
    requires period > 0
    ensures var c := Start(now, period, phase);
      if phase.Some? && PeriodsCompatible(period, phase.value.1)
      then c.phased && (Sought(now, phase.value.0, period) < U64_LIMIT ==> IsNext(now, phase.value.0, period, c.next))
      else !c.phased && (now + period < U64_LIMIT ==> c.next == now + period)
  {
    if phase.Some? { NextVsyncIsExact(now, phase.value.0, period); }
  }

  datatype ClockStep = Wake(now: u64) | Observe(now: u64, timestamp: u64, period: u64)

  /** One clock with the times it delivered and the periods it skipped. */
  datatype Trace = Trace(clock: Clock, delivered: seq<u64>, skipped: nat)

  function Advance(t: Trace, step: ClockStep): Trace
    requires t.clock.period > 0
  {
    match step
    case Wake(now) =>
      if t.clock.next <= now
      then Trace(t.clock.Ticked(now), t.delivered + [t.clock.next], t.skipped + t.clock.Skipped(now))
      else t
    case Observe(now, timestamp, p) => if p == 0 then t else t.(clock := t.clock.Observed(now, timestamp, p))
  }

  /** The step brings a sample that a clock of this period accepts. */
  predicate Samples(step: ClockStep, period: u64) {
    step.Observe? && step.period != 0 && PeriodsCompatible(period, step.period)
  }

  function Run(start: Clock, steps: seq<ClockStep>): (t: Trace)
    requires start.period > 0
    ensures t.clock.period == start.period
    decreases |steps|
  {
    if steps == [] then Trace(start, [], 0) else Advance(Run(start, steps[..|steps| - 1]), steps[|steps| - 1])
  }

  /** No wake-up comes so late that the next tick leaves the 64-bit range. */
  predicate InRange(steps: seq<ClockStep>, period: u64) {
    forall i :: 0 <= i < |steps| && steps[i].Wake? ==> steps[i].now + period < U64_LIMIT
  }

  /** Everything delivered lies on the first tick's grid, in order, below the next tick. */
  ghost predicate OnSchedule(start: Clock, t: Trace) {
    && t.clock == start.(next := t.clock.next)
    && t.clock.next == start.next + start.period * (|t.delivered| + t.skipped)
    && (forall i :: 0 <= i < |t.delivered| ==>
          t.delivered[i] < t.clock.next && exists k :: OnGrid(start.next, start.period, k, t.delivered[i]))
    && (forall i, j :: 0 <= i < j < |t.delivered| ==> t.delivered[i] < t.delivered[j])
  }

  lemma TickMoves(c: Clock, now: u64)
    requires c.period > 0 && c.next <= now && now + c.period < U64_LIMIT
    ensures c.Ticked(now).next == c.next + c.period * (1 + c.Skipped(now)) > now
  {
    NextVsyncIsExact(now, c.next, c.period);
    SoughtIsNext(now, c.next, c.period);
    var n := c.Skipped(now);
    assert (n + 1) * c.period == c.period * (1 + n);
  }

  lemma TickKeepsSchedule(start: Clock, t: Trace, now: u64)
    requires start.period > 0 && OnSchedule(start, t) && t.clock.next <= now && now + start.period < U64_LIMIT
    ensures OnSchedule(start, Advance(t, Wake(now)))
  {
    var r, p := Advance(t, Wake(now)), start.period;
    TickMoves(t.clock, now);
    var n, m := |t.delivered| + t.skipped, 1 + t.clock.Skipped(now);
    assert r.clock.next == start.next + p * (n + m) by { Distributes(p, n, m); }
    assert OnGrid(start.next, p, n, t.clock.next) by { assert p * n == n * p; }
    forall i | 0 <= i < |r.delivered| ensures r.delivered[i] < r.clock.next && exists k :: OnGrid(start.next, p, k, r.delivered[i]) {
      if i < |t.delivered| { assert r.delivered[i] == t.delivered[i]; }
    }
  }

  lemma Distributes(p: int, n: int, m: int)
    ensures p * n + p * m == p * (n + m)
  {
  }

  /** No sample of the run can set this clock's phase. */
  predicate Unsampled(steps: seq<ClockStep>, period: u64) {
    forall i :: 0 <= i < |steps| ==> !Samples(steps[i], period)
  }

  /** Without drift: over every run of a clock whose phase cannot change, because it is set or
      because no compatible sample arrives, whatever wake-ups are late: delivered times
      strictly increase, stay in the first tick's residue class, and the next tick is exactly
      one period per delivered or skipped tick after the first. */
  lemma {:induction false} NoDrift(start: Clock, steps: seq<ClockStep>)
    requires start.period > 0 && (start.phased || Unsampled(steps, start.period)) && InRange(steps, start.period)
    ensures OnSchedule(start, Run(start, steps))
    decreases |steps|
  {
    if steps != [] {
      var rest, step := steps[..|steps| - 1], steps[|steps| - 1];
      assert forall i :: 0 <= i < |rest| ==> rest[i] == steps[i];
      NoDrift(start, rest);
      var t := Run(start, rest);
      hide OnSchedule, Run;
      assert t.clock.phased == start.phased && t.clock.period == start.period by { ScheduledIsPhased(start, t); }
      match step
      case Wake(now) => if t.clock.next <= now { TickKeepsSchedule(start, t, now); }
      case Observe(now, timestamp, p) =>
      assert Run(start, steps) == Advance(t, step) by { RunStep(start, steps); }
    } else {
      assert start.period * 0 == 0;
    }
  }

  function NowOf(step: ClockStep): u64 { step.now }

  /** The clock is read in order, and never so late that a tick leaves the 64-bit range. */
  ghost predicate Timely(steps: seq<ClockStep>, period: u64) {
    && (forall i :: 0 <= i < |steps| ==> NowOf(steps[i]) + period < U64_LIMIT)
    && (forall i, j :: 0 <= i < j < |steps| ==> NowOf(steps[i]) <= NowOf(steps[j]))
  }

  /** Everything delivered so far is in order, before the next tick and not after `now`. */
  ghost predicate InOrder(t: Trace, now: u64) {
    && (forall i, j :: 0 <= i < j < |t.delivered| ==> t.delivered[i] < t.delivered[j])
    && (forall i :: 0 <= i < |t.delivered| ==> t.delivered[i] < t.clock.next && t.delivered[i] <= now)
  }

  lemma OrderStep(t: Trace, before: u64, step: ClockStep)
    requires t.clock.period > 0 && InOrder(t, before) && before <= NowOf(step) && NowOf(step) + t.clock.period < U64_LIMIT
    ensures InOrder(Advance(t, step), NowOf(step))
  {
    match step
    case Wake(now) => if t.clock.next <= now { TickMoves(t.clock, now); }
    case Observe(now, timestamp, p) =>
      NextVsyncIsExact(now, timestamp, t.clock.period);
      SoughtIsNext(now, timestamp, t.clock.period);
  }

  /** Delivered times strictly increase over every run of every clock, phased or not, also
      across the one change of phase, wherever the sample lies. */
  lemma {:induction false} TicksIncrease(start: Clock, steps: seq<ClockStep>)
    requires start.period > 0 && Timely(steps, start.period)
    ensures InOrder(Run(start, steps), if steps == [] then 0 else NowOf(steps[|steps| - 1]))
    decreases |steps|
  {
    if steps != [] {
      var rest, step := steps[..|steps| - 1], steps[|steps| - 1];
      assert forall i :: 0 <= i < |rest| ==> rest[i] == steps[i];
      TicksIncrease(start, rest);
      RunStep(start, steps);
      hide Run, InOrder;
      OrderStep(Run(start, rest), if rest == [] then 0 else NowOf(rest[|rest| - 1]), step);
    }
  }

  /** A run is its first part, then the rest from the clock that left. */
  lemma {:induction false} RunSplits(start: Clock, steps: seq<ClockStep>, i: nat)
    requires start.period > 0 && i <= |steps|
    ensures var a := Run(start, steps[..i]);
      var b := Run(a.clock, steps[i..]);
      Run(start, steps) == Trace(b.clock, a.delivered + b.delivered, a.skipped + b.skipped)
    decreases |steps|
  {
    var n := |steps|;
    var a := Run(start, steps[..i]);
    if i == n {
      assert steps[..i] == steps;
      assert a.delivered + [] == a.delivered;
    } else {
      RunSplits(start, steps[..n - 1], i);
      assert steps[..n - 1][..i] == steps[..i];
      assert steps[..n - 1][i..] == steps[i..][..n - 1 - i];
      RunStep(start, steps);
      RunStep(a.clock, steps[i..]);
      var b := Run(a.clock, steps[i..][..n - 1 - i]);
      hide Run;
      assert a.delivered + (b.delivered + [b.clock.next]) == a.delivered + b.delivered + [b.clock.next];
    }
  }

  /** A sample that a clock accepts sets its phase, and the run goes on from there. */
  lemma RunSamples(start: Clock, steps: seq<ClockStep>, i: nat)
    requires start.period > 0 && i < |steps| && Samples(steps[i], start.period)
    ensures var before := Run(start, steps[..i]);
      var sampled := before.clock.Observed(steps[i].now, steps[i].timestamp, steps[i].period);
      var after := Run(sampled, steps[i + 1..]);
      Run(start, steps) == Trace(after.clock, before.delivered + after.delivered, before.skipped + after.skipped)
  {
    hide Run, NextVsyncAfter, PeriodsCompatible;
    RunSplits(start, steps, i + 1);
    RunStep(start, steps[..i + 1]);
    assert steps[..i + 1][..i] == steps[..i];
  }

  lemma RangeOfPart(steps: seq<ClockStep>, i: nat, period: u64)
    requires InRange(steps, period) && i <= |steps|
    ensures InRange(steps[..i], period) && InRange(steps[i..], period)
  {
  }

  /** An unphased clock follows two schedules: its own until the first compatible sample, and
      from then on the one that sample set, for the whole rest of the run. */
  lemma SampledOnce(start: Clock, steps: seq<ClockStep>, i: nat)
    requires start.period > 0 && !start.phased && InRange(steps, start.period)
    requires i < |steps| && Samples(steps[i], start.period) && Unsampled(steps[..i], start.period)
    ensures var before := Run(start, steps[..i]);
      var sampled := Clock(start.period, NextVsyncAfter(steps[i].now, steps[i].timestamp, start.period), true);
      var after := Run(sampled, steps[i + 1..]);
      && OnSchedule(start, before)
      && OnSchedule(sampled, after)
      && Run(start, steps) == Trace(after.clock, before.delivered + after.delivered, before.skipped + after.skipped)
  {
    hide NextVsyncAfter, Run, OnSchedule, InRange, Unsampled;
    RangeOfPart(steps, i, start.period);
    RangeOfPart(steps, i + 1, start.period);
    NoDrift(start, steps[..i]);
    ScheduledIsPhased(start, Run(start, steps[..i]));
    NoDrift(Clock(start.period, NextVsyncAfter(steps[i].now, steps[i].timestamp, start.period), true), steps[i + 1..]);
    RunSamples(start, steps, i);
  }

  lemma RunStep(start: Clock, steps: seq<ClockStep>)
    requires start.period > 0 && steps != []
    ensures Run(start, steps) == Advance(Run(start, steps[..|steps| - 1]), steps[|steps| - 1])
  {
  }

  lemma ScheduledIsPhased(start: Clock, t: Trace)
    requires OnSchedule(start, t)
    ensures t.clock.phased == start.phased && t.clock.period == start.period
  {
  }

  /** An unphased clock takes its phase from the first compatible sample and never moves
      for a sample again. */
  lemma FirstSampleSetsThePhase(c: Clock, now: u64, timestamp: u64, p: u64, later: u64, other: u64, q: u64)
    requires c.period > 0
    ensures c.phased ==> c.Observed(now, timestamp, p) == c
    ensures var once := c.Observed(now, timestamp, p); once.phased ==> once.Observed(later, other, q) == once
    ensures !c.phased && PeriodsCompatible(c.period, p) && Sought(now, timestamp, c.period) < U64_LIMIT ==>
              IsNext(now, timestamp, c.period, c.Observed(now, timestamp, p).next)
  {
    NextVsyncIsExact(now, timestamp, c.period);
  }

  // ------------------------------------------------------------------------------------
  // The schedule of all displays

  datatype Due = Due(display: u64, timestamp: u64, period: u64)

  /** The due clocks among `order`, in that order. */
  function DueList(displays: map<u64, Clock>, order: seq<u64>, now: u64): seq<Due>
    requires forall d :: d in order ==> d in displays
    decreases |order|
  {
    if order == [] then []
    else
      var rest, d := order[..|order| - 1], order[|order| - 1];
      DueList(displays, rest, now) + (if displays[d].next <= now then [Due(d, displays[d].next, displays[d].period)] else [])
  }

  lemma DueStep(displays: map<u64, Clock>, order: seq<u64>, i: nat, now: u64)
    requires i < |order| && forall d :: d in order ==> d in displays
    ensures var d := order[i];
      DueList(displays, order[..i + 1], now)
      == DueList(displays, order[..i], now) + (if displays[d].next <= now then [Due(d, displays[d].next, displays[d].period)] else [])
  {
    assert order[..i + 1][..i] == order[..i];
  }

  /** The clocks after those named in `done` have ticked. */
  function TickedOf(displays: map<u64, Clock>, done: seq<u64>, now: u64): map<u64, Clock>
    requires forall d :: d in displays ==> displays[d].period > 0
  {
    map d | d in displays :: if d in done then displays[d].Ticked(now) else displays[d]
  }

  lemma TickStep(displays: map<u64, Clock>, order: seq<u64>, i: nat, now: u64)
    requires forall d :: d in displays ==> displays[d].period > 0
    requires i < |order| && order[i] in displays && Strict(order)
    ensures var d, before := order[i], TickedOf(displays, order[..i], now);
      d in before && before[d] == displays[d] && TickedOf(displays, order[..i + 1], now) == before[d := displays[d].Ticked(now)]
  {
    assert order[i] !in order[..i];
    assert order[..i + 1] == order[..i] + [order[i]];
    hide Strict, Clock.Ticked;
  }

  lemma TickedAll(displays: map<u64, Clock>, now: u64)
    requires forall d :: d in displays ==> displays[d].period > 0
    ensures var t := TickedOf(displays, Ascending(displays.Keys), now);
      t.Keys == displays.Keys && forall d :: d in t ==> t[d] == displays[d].Ticked(now) && t[d].period > 0
  {
    hide NextVsyncAfter, Least;
  }

  /** The list holds exactly the due clocks, each with its scheduled time. */
  lemma {:induction false} DueListIsExact(displays: map<u64, Clock>, order: seq<u64>, now: u64, x: Due)
    requires forall d :: d in order ==> d in displays
    ensures x in DueList(displays, order, now) <==>
      x.display in order && displays[x.display].next <= now && x == Due(x.display, displays[x.display].next, displays[x.display].period)
    decreases |order|
  {
    if order != [] {
      var rest := order[..|order| - 1];
      assert order == rest + [order[|order| - 1]];
      DueListIsExact(displays, rest, now, x);
    }
  }

  /** The schedule, with one clock per display and the latest sample, updated in place. */
  class VsyncSchedule {
    var displays: map<u64, Clock>
    var phase: Option<(u64, u64)>
    const hostClock: bool

    ghost predicate Running() reads this { forall d :: d in displays ==> displays[d].period > 0 }

    constructor (hostClock: bool)
      ensures displays == map[] && phase == None && this.hostClock == hostClock && Running()
    {
      displays, phase, this.hostClock := map[], None, hostClock;
    }

    /** One pass over the clocks in display order: the due ones deliver and move on, the
        others stay. */
    method Tick(now: u64) returns (due: seq<Due>)
      requires Running()
      modifies this`displays
      ensures Running() && displays.Keys == old(displays).Keys
      ensures forall d :: d in displays ==> old(displays)[d].period > 0 && displays[d] == old(displays)[d].Ticked(now)
      ensures due == DueList(old(displays), Ascending(old(displays).Keys), now)
    {
      due := [];
      var was, order := displays, Ascending(displays.Keys);
      hide NextVsyncAfter, Least, Clock.Ticked;
      AscendingIsStrict(displays.Keys);
      assert due == DueList(was, order[..0], now) && displays == TickedOf(was, order[..0], now);
      TickedAll(was, now);
      hide Ascending, Strict, DueList, TickedOf;
      for i := 0 to |order|
        invariant displays == TickedOf(was, order[..i], now)
        invariant due == DueList(was, order[..i], now)
      {
        var d := order[i];
        DueStep(was, order, i, now);
        TickStep(was, order, i, now);
        var clock := displays[d];
        if clock.next <= now {
          due := due + [Due(d, clock.next, clock.period)];
        }
        displays := displays[d := clock.Ticked(now)];
      }
      assert order[..|order|] == order;
    }

    /** Unless the host's grants drive the clocks, the sample is kept for clocks that start
        later; of the running ones only those still waiting for their first compatible sample
        move. */
    method ObservePresentation(now: u64, timestamp: u64, period: u64)
      requires Running()
      modifies this
      ensures Running() && displays.Keys == old(displays).Keys
      ensures period == 0 || hostClock ==> displays == old(displays) && phase == old(phase)
      ensures period != 0 && !hostClock ==>
        && phase == Some((timestamp, period))
        && forall d :: d in displays ==> old(displays)[d].period > 0 && displays[d] == old(displays)[d].Observed(now, timestamp, period)
    {
      if period == 0 || hostClock {
        return;
      }
      phase := Some((timestamp, period));
      displays := map d | d in displays :: displays[d].Observed(now, timestamp, period);
    }

    /** A clock is started on the kept sample, or stopped; a zero period is refused. */
    method SetEnabled(display: u64, enabled: bool, period: u64, now: u64) returns (ok: bool)
      requires Running()
      modifies this`displays
      ensures Running() && (ok <==> period != 0)
      ensures !ok ==> displays == old(displays)
      ensures ok ==> period > 0 && displays == if enabled then old(displays)[display := Start(now, period, phase)] else old(displays) - {display}
    {
      if period == 0 {
        return false;
      }
      if enabled {
        displays := displays[display := Start(now, period, phase)];
      } else {
        displays := displays - {display};
      }
      return true;
    }

    /** A new period restarts a running clock; it never starts a stopped one, and the same
        period changes nothing. */
    method UpdatePeriod(display: u64, period: u64, now: u64) returns (ok: bool)
      requires Running()
      modifies this`displays
      ensures Running() && (ok <==> period != 0) && displays.Keys == old(displays).Keys
      ensures !ok || display !in old(displays) || old(displays)[display].period == period ==> displays == old(displays)
      ensures ok && display in old(displays) && old(displays)[display].period != period ==>
        period > 0 && displays == old(displays)[display := Start(now, period, phase)]
    {
      if period == 0 {
        return false;
      }
      if display in displays && displays[display].period != period {
        displays := displays[display := Start(now, period, phase)];
      }
      return true;
    }
  }
}
