/** The integer bookkeeping of the server's health record
    (`server/src/actor/health.rs`): per-window tick counting for the
    ticks-per-second metric, the seconds-per-tick samples, and the 30-second
    window over which missed ticks are judged. Time is a natural number of
    nanoseconds on the monotonic clock. */
module Health {
  import opened Basics

  type Instant = nat
  type Duration = nat

  const ONE_SECOND: Duration := 1_000_000_000
  /** Length of the window after which the missed-tick count restarts. */
  const MISSED_TICKS_WINDOW: Duration := 30 * ONE_SECOND
  /** Upper bound a seconds-per-tick sample is clamped to. */
  const MAX_SPT: real := 10.0

  /** `Instant::duration_since`, which saturates to zero when `earlier` is
      in fact later than `now`. */
  function DurationSince(now: Instant, earlier: Instant): (d: Duration)
    ensures earlier <= now ==> earlier + d == now
    ensures now <= earlier ==> d == 0
  {
    if earlier <= now then now - earlier else 0
  }

  /** A metric accumulator, seen as the sequence of values pushed into it
      since it was created or last taken. */
  datatype Accumulator<T> = Accumulator(samples: seq<T>) {
    function Push(x: T): (a: Accumulator<T>)
      ensures |a.samples| == |samples| + 1 && a.samples[|samples|] == x
      ensures a.samples[..|samples|] == samples
    {
      Accumulator(samples + [x])
    }
  }

  /** `elapsed.clamp(0.0, 10.0)`. */
  function ClampSpt(elapsed: real): (r: real)
    ensures 0.0 <= r <= MAX_SPT
    ensures 0.0 <= elapsed <= MAX_SPT ==> r == elapsed
    ensures elapsed < 0.0 ==> r == 0.0
    ensures elapsed > MAX_SPT ==> r == MAX_SPT
  {
    if elapsed < 0.0 then 0.0 else if elapsed > MAX_SPT then MAX_SPT else elapsed
  }

  /** The tick-counting part of `Health`. */
  datatype Health = Health(
    missedTicksStart: Instant,
    /** Ticks completed since `missedTicksStart`. */
    ticksForMissedTicks: Usize,
    /** Seconds per tick. */
    spt: Accumulator<real>,
    /** Ticks per second. */
    tps: Accumulator<Usize>,
    /** Ticks in the current TPS measurement window. */
    ticks: Usize,
    /** Start of the current TPS measurement window. */
    tpsStart: Instant
  )

  /** The state `Health::default` creates at time `now`: both windows open at
      `now`, no tick counted, both accumulators empty. */
  function Initial(now: Instant): (h: Health)
    ensures h.ticks == 0 && h.ticksForMissedTicks == 0
    ensures h.tpsStart == now && h.missedTicksStart == now
    ensures h.tps.samples == [] && h.spt.samples == []
  {
    Health(now, 0, Accumulator([]), Accumulator([]), 0, now)
  }

  /** `record_tick` at time `now` for a tick that took `elapsed` seconds.
      `threshold` is the shortest TPS window that may be closed, which the
      source derives from the tick period (just under one second). */
  function RecordTick(h: Health, now: Instant, elapsed: real, threshold: Duration): (h': Health)
    // one seconds-per-tick sample per call
    ensures h'.spt.samples == h.spt.samples + [ClampSpt(elapsed)]
    // window too short to close: count this tick in it
    ensures DurationSince(now, h.tpsStart) < threshold ==>
      h'.ticks == SaturatingIncrement(h.ticks) && h'.tps == h.tps && h'.tpsStart == h.tpsStart
    // a full second or more: close the window including this tick
    ensures threshold <= DurationSince(now, h.tpsStart) && ONE_SECOND <= DurationSince(now, h.tpsStart) ==>
      h'.tps.samples == h.tps.samples + [SaturatingIncrement(h.ticks)] && h'.ticks == 0 && h'.tpsStart == now
    // just short of a second: close the window without this tick, which opens the next one
    ensures threshold <= DurationSince(now, h.tpsStart) < ONE_SECOND ==>
      h'.tps.samples == h.tps.samples + [h.ticks] && h'.ticks == 1 && h'.tpsStart == now
    // missed-tick window: restarts only strictly after 30 seconds
    ensures DurationSince(now, h.missedTicksStart) > MISSED_TICKS_WINDOW ==>
      h'.ticksForMissedTicks == 0 && h'.missedTicksStart == now
    ensures DurationSince(now, h.missedTicksStart) <= MISSED_TICKS_WINDOW ==>
      h'.ticksForMissedTicks == WrappingIncrement(h.ticksForMissedTicks) && h'.missedTicksStart == h.missedTicksStart
  {
    var ticksForMissedTicks := WrappingIncrement(h.ticksForMissedTicks);
    var spt := h.spt.Push(ClampSpt(elapsed));

    var tpsElapsed := DurationSince(now, h.tpsStart);
    var (tps, ticks, tpsStart) :=
      if tpsElapsed >= threshold then
        if tpsElapsed >= ONE_SECOND then
          (h.tps.Push(SaturatingIncrement(h.ticks)), 0, now)
        else
          (h.tps.Push(h.ticks), 1, now)
      else
        (h.tps, SaturatingIncrement(h.ticks), h.tpsStart);

    var missedTicksElapsed := DurationSince(now, h.missedTicksStart);
    var (ticksForMissedTicks', missedTicksStart) :=
      if missedTicksElapsed > MISSED_TICKS_WINDOW then (0, now)
      else (ticksForMissedTicks, h.missedTicksStart);

    Health(missedTicksStart, ticksForMissedTicks', spt, tps, ticks, tpsStart)
  }

  /** `take_tps`: the TPS accumulator, and the state left with an empty one.
      Putting the taken accumulator back restores the original state. */
  function TakeTps(h: Health): (r: (Accumulator<Usize>, Health))
    ensures r.0 == h.tps && r.1.tps.samples == []
    ensures r.1.(tps := r.0) == h
  {
    (h.tps, h.(tps := Accumulator([])))
  }

  /** `take_spt`: the seconds-per-tick accumulator, and the state left with
      an empty one. Putting the taken accumulator back restores the original. */
  function TakeSpt(h: Health): (r: (Accumulator<real>, Health))
    ensures r.0 == h.spt && r.1.spt.samples == []
    ensures r.1.(spt := r.0) == h
  {
    (h.spt, h.(spt := Accumulator([])))
  }

  /** Taking twice in a row yields an empty accumulator the second time and
      changes nothing more. */
  lemma TakeTwiceYieldsEmpty(h: Health)
    ensures TakeTps(TakeTps(h).1).0.samples == [] && TakeTps(TakeTps(h).1).1 == TakeTps(h).1
    ensures TakeSpt(TakeSpt(h).1).0.samples == [] && TakeSpt(TakeSpt(h).1).1 == TakeSpt(h).1
  {
  }

  // ----- runs of calls -----

  /** One call on the health record. */
  datatype Event = Tick(now: Instant, elapsed: real) | TakeTpsCall | TakeSptCall

  /** What a run of calls produced: the final state and, in order, every TPS
      and seconds-per-tick sample handed out by the takes. */
  datatype Outcome = Outcome(last: Health, tpsTaken: seq<Usize>, sptTaken: seq<real>)

  function Run(h: Health, events: seq<Event>, threshold: Duration): (o: Outcome)
    decreases |events|
  {
    if |events| == 0 then Outcome(h, [], [])
    else
      match events[0]
      case Tick(now, elapsed) =>
        Run(RecordTick(h, now, elapsed, threshold), events[1..], threshold)
      case TakeTpsCall =>
        var (taken, h') := TakeTps(h);
        var o := Run(h', events[1..], threshold);
        o.(tpsTaken := taken.samples + o.tpsTaken)
      case TakeSptCall =>
        var (taken, h') := TakeSpt(h);
        var o := Run(h', events[1..], threshold);
        o.(sptTaken := taken.samples + o.sptTaken)
  }

  function TickCount(events: seq<Event>): nat
  {
    if |events| == 0 then 0
    else (if events[0].Tick? then 1 else 0) + TickCount(events[1..])
  }

  /** The clamped `elapsed` of every tick in `events`, in order. */
  function ClampedElapsed(events: seq<Event>): seq<real>
  {
    if |events| == 0 then []
    else (if events[0].Tick? then [ClampSpt(events[0].elapsed)] else []) + ClampedElapsed(events[1..])
  }

  function Sum(xs: seq<int>): int
  {
    if |xs| == 0 then 0 else xs[0] + Sum(xs[1..])
  }

  lemma {:induction false} SumAppend(xs: seq<int>, ys: seq<int>)
    ensures Sum(xs + ys) == Sum(xs) + Sum(ys)
    decreases |xs|
  {
    if |xs| == 0 {
      assert xs + ys == ys;
    } else {
      assert (xs + ys)[1..] == xs[1..] + ys;
      SumAppend(xs[1..], ys);
    }
  }

  /** No seconds-per-tick sample is lost or reordered: the samples taken
      during a run, followed by those still held, are the samples held at
      the start followed by one clamped sample per tick. */
  lemma {:induction false} SptSamplesConserved(h: Health, events: seq<Event>, threshold: Duration)
    ensures Run(h, events, threshold).sptTaken + Run(h, events, threshold).last.spt.samples
         == h.spt.samples + ClampedElapsed(events)
    decreases |events|
  {
    if |events| == 0 {
      assert h.spt.samples + ClampedElapsed(events) == h.spt.samples;
    } else if events[0].Tick? {
      SptTickStep(h, events, threshold);
    } else if events[0].TakeTpsCall? {
      SptSamplesConserved(TakeTps(h).1, events[1..], threshold);
    } else {
      SptTakeStep(h, events, threshold);
    }
  }

  lemma SptTickStep(h: Health, events: seq<Event>, threshold: Duration)
    requires |events| > 0 && events[0].Tick?
    ensures Run(h, events, threshold).sptTaken + Run(h, events, threshold).last.spt.samples
         == h.spt.samples + ClampedElapsed(events)
    decreases |events|, 0
  {
    var rest := events[1..];
    var h' := RecordTick(h, events[0].now, events[0].elapsed, threshold);
    assert Run(h, events, threshold) == Run(h', rest, threshold);
    assert ClampedElapsed(events) == [ClampSpt(events[0].elapsed)] + ClampedElapsed(rest);
    SptSamplesConserved(h', rest, threshold);
    assert h.spt.samples + ClampedElapsed(events)
        == (h.spt.samples + [ClampSpt(events[0].elapsed)]) + ClampedElapsed(rest);
  }

  lemma SptTakeStep(h: Health, events: seq<Event>, threshold: Duration)
    requires |events| > 0 && events[0].TakeSptCall?
    ensures Run(h, events, threshold).sptTaken + Run(h, events, threshold).last.spt.samples
         == h.spt.samples + ClampedElapsed(events)
    decreases |events|, 0
  {
    var rest := events[1..];
    var h' := TakeSpt(h).1;
    var o := Run(h', rest, threshold);
    assert Run(h, events, threshold) == o.(sptTaken := h.spt.samples + o.sptTaken);
    assert ClampedElapsed(events) == ClampedElapsed(rest);
    SptSamplesConserved(h', rest, threshold);
    assert h'.spt.samples == [];
    assert h.spt.samples + o.sptTaken + o.last.spt.samples
        == h.spt.samples + (o.sptTaken + o.last.spt.samples);
  }

  /** One tick adds exactly one to the ticks counted so far, held either in
      the open window or in the TPS samples, as long as the window counter
      does not saturate. */
  lemma TickCountedOnce(h: Health, now: Instant, elapsed: real, threshold: Duration)
    requires h.ticks < USIZE_MAX
    ensures var h' := RecordTick(h, now, elapsed, threshold);
      Sum(h'.tps.samples) + h'.ticks == Sum(h.tps.samples) + h.ticks + 1
      && h'.ticks <= h.ticks + 1
  {
    var h' := RecordTick(h, now, elapsed, threshold);
    if h'.tps != h.tps {
      SumAppend(h.tps.samples, [h'.tps.samples[|h.tps.samples|]]);
    }
  }

  /** Every tick is counted exactly once: over any run of calls whose ticks
      cannot saturate the window counter, the TPS samples handed out, those
      still held and the open window's count together grow by exactly the
      number of ticks. */
  lemma {:induction false} TicksConserved(h: Health, events: seq<Event>, threshold: Duration)
    requires h.ticks + TickCount(events) <= USIZE_MAX
    ensures var o := Run(h, events, threshold);
      Sum(o.tpsTaken) + Sum(o.last.tps.samples) + o.last.ticks
      == Sum(h.tps.samples) + h.ticks + TickCount(events)
    decreases |events|
  {
    if |events| > 0 {
      var rest := events[1..];
      match events[0]
      case Tick(now, elapsed) =>
        TickCountedOnce(h, now, elapsed, threshold);
        TicksConserved(RecordTick(h, now, elapsed, threshold), rest, threshold);
      case TakeTpsCall =>
        var (taken, h') := TakeTps(h);
        TicksConserved(h', rest, threshold);
        SumAppend(taken.samples, Run(h', rest, threshold).tpsTaken);
      case TakeSptCall =>
        TicksConserved(TakeSpt(h).1, rest, threshold);
    }
  }

  /** From a freshly created record, the ticks counted in all TPS samples
      (taken or not) plus the open window equal the number of ticks
      recorded, and the seconds-per-tick samples are exactly the clamped
      tick durations. */
  lemma FromInitialEveryTickCounted(start: Instant, events: seq<Event>, threshold: Duration)
    requires TickCount(events) <= USIZE_MAX
    ensures var o := Run(Initial(start), events, threshold);
      && Sum(o.tpsTaken) + Sum(o.last.tps.samples) + o.last.ticks == TickCount(events)
      && o.sptTaken + o.last.spt.samples == ClampedElapsed(events)
  {
    TicksConserved(Initial(start), events, threshold);
    SptSamplesConserved(Initial(start), events, threshold);
  }

  /** Every tick of `events` happens no later than `limit`. */
  ghost predicate TicksNoLaterThan(events: seq<Event>, limit: Instant)
  {
    forall i :: 0 <= i < |events| && events[i].Tick? ==> events[i].now <= limit
  }

  /** The missed-tick window is closed on the right: as long as no tick comes
      more than 30 seconds after the window opened (exactly 30 seconds
      included), the window stays open and its counter counts every tick. */
  lemma {:induction false} MissedTicksWindowCountsEveryTick(h: Health, events: seq<Event>, threshold: Duration)
    requires TicksNoLaterThan(events, h.missedTicksStart + MISSED_TICKS_WINDOW)
    requires h.ticksForMissedTicks + TickCount(events) <= USIZE_MAX
    ensures var last := Run(h, events, threshold).last;
      && last.missedTicksStart == h.missedTicksStart
      && last.ticksForMissedTicks == h.ticksForMissedTicks + TickCount(events)
    decreases |events|
  {
    if |events| > 0 {
      var rest := events[1..];
      assert TicksNoLaterThan(rest, h.missedTicksStart + MISSED_TICKS_WINDOW) by {
        forall i | 0 <= i < |rest| && rest[i].Tick?
          ensures rest[i].now <= h.missedTicksStart + MISSED_TICKS_WINDOW
        {
          assert rest[i] == events[i + 1];
        }
      }
      match events[0]
      case Tick(now, elapsed) =>
        assert DurationSince(now, h.missedTicksStart) <= MISSED_TICKS_WINDOW;
        MissedTicksWindowCountsEveryTick(RecordTick(h, now, elapsed, threshold), rest, threshold);
      case TakeTpsCall =>
        MissedTicksWindowCountsEveryTick(TakeTps(h).1, rest, threshold);
      case TakeSptCall =>
        MissedTicksWindowCountsEveryTick(TakeSpt(h).1, rest, threshold);
    }
  }

  /** Every tick of `events` happens strictly before `limit`. */
  ghost predicate TicksBefore(events: seq<Event>, limit: Instant)
  {
    forall i :: 0 <= i < |events| && events[i].Tick? ==> events[i].now < limit
  }

  /** The TPS window cannot close before `threshold` has passed: ticks that
      all come earlier leave its start where it was and are all counted in
      it, unless the counter saturates. The threshold the source derives
      from its tick period is positive. */
  lemma {:induction false} TpsWindowCountsEveryTick(h: Health, events: seq<Event>, threshold: Duration)
    requires threshold > 0
    requires TicksBefore(events, h.tpsStart + threshold)
    requires h.ticks + TickCount(events) <= USIZE_MAX
    ensures var last := Run(h, events, threshold).last;
      && last.tpsStart == h.tpsStart
      && last.ticks == h.ticks + TickCount(events)
    decreases |events|
  {
    if |events| > 0 {
      var rest := events[1..];
      assert TicksBefore(rest, h.tpsStart + threshold) by {
        forall i | 0 <= i < |rest| && rest[i].Tick?
          ensures rest[i].now < h.tpsStart + threshold
        {
          assert rest[i] == events[i + 1];
        }
      }
      match events[0]
      case Tick(now, elapsed) =>
        assert DurationSince(now, h.tpsStart) < threshold;
        TpsWindowCountsEveryTick(RecordTick(h, now, elapsed, threshold), rest, threshold);
      case TakeTpsCall =>
        TpsWindowCountsEveryTick(TakeTps(h).1, rest, threshold);
      case TakeSptCall =>
        TpsWindowCountsEveryTick(TakeSpt(h).1, rest, threshold);
    }
  }
}
