/**
 The system sampler `updateSystemMetrics`, one tick at a time: five gauges set
 from the runtime's statistics, and the number of GC cycles since the previous
 tick, computed in uint32 arithmetic and added to `gc_runs_total` when positive.
 The ticker, the goroutine and `runtime.ReadMemStats` are replaced by a
 sequence of observed samples.
 */
module Sampler {
  import opened Wrappers
  import opened Registry
  import opened Recording
  import opened RecordingLaws

  const TwoTo32: int := 0x1_0000_0000

  /** Go's `uint32`. */
  type U32 = x: int | 0 <= x < TwoTo32

  /** `a - b` on `uint32`: wraps around modulo 2^32. */
  function SubU32(a: U32, b: U32): U32 {
    (a - b) % TwoTo32
  }

  /** The GC bookkeeping after a tick: the new `lastNumGC`, and the increment emitted if any. */
  datatype GcStep = GcStep(lastNumGC: U32, runs: Option<U32>)

  /**
   The GC-delta step: `gcRuns := NumGC - lastNumGC`; if positive, emit it and
   remember `NumGC`. Although `updateSystemMetrics` assigns `lastNumGC` only in the
   positive branch, afterwards it always equals the observed `NumGC`.
   */
  function GcTick(lastNumGC: U32, numGC: U32): (s: GcStep)
    ensures s.lastNumGC == numGC
    ensures s.runs.Some? <==> numGC != lastNumGC
    ensures s.runs.Some? ==> 0 < s.runs.value && (lastNumGC + s.runs.value) % TwoTo32 == numGC
    ensures s.runs.Some? && lastNumGC <= numGC ==> s.runs.value == numGC - lastNumGC
  {
    var gcRuns := SubU32(numGC, lastNumGC);
    if gcRuns > 0 then GcStep(numGC, Some(gcRuns)) else GcStep(lastNumGC, None)
  }

  /** The increments emitted over a sequence of observed `NumGC` values. */
  function GcRuns(lastNumGC: U32, observed: seq<U32>): seq<U32>
    decreases |observed|
  {
    if |observed| == 0 then []
    else
      var s := GcTick(lastNumGC, observed[0]);
      (if s.runs.Some? then [s.runs.value] else []) + GcRuns(s.lastNumGC, observed[1..])
  }

  function Sum(xs: seq<U32>): int {
    if |xs| == 0 then 0 else xs[0] + Sum(xs[1..])
  }

  /** `NumGC` never decreases over the observations (no 32-bit wrap-around). */
  predicate NonDecreasing(start: U32, observed: seq<U32>) {
    (forall i :: 0 <= i < |observed| ==> start <= observed[i]) &&
    (forall i, j :: 0 <= i < j < |observed| ==> observed[i] <= observed[j])
  }

  /**
   The emitted increments telescope: added to the starting `lastNumGC` they
   give the last observed `NumGC` modulo 2^32.
   */
  lemma {:induction false} GcRunsTelescope(lastNumGC: U32, observed: seq<U32>)
    requires |observed| > 0
    ensures (lastNumGC + Sum(GcRuns(lastNumGC, observed))) % TwoTo32 == observed[|observed| - 1]
    decreases |observed|
  {
    var s := GcTick(lastNumGC, observed[0]);
    var head: seq<U32> := if s.runs.Some? then [s.runs.value] else [];
    var tail := observed[1..];
    SumAppend(head, GcRuns(s.lastNumGC, tail));
    if |tail| == 0 {
      assert GcRuns(s.lastNumGC, tail) == [];
    } else {
      GcRunsTelescope(s.lastNumGC, tail);
      assert tail[|tail| - 1] == observed[|observed| - 1];
      ModAddLeft(lastNumGC + Sum(head), observed[0], Sum(GcRuns(s.lastNumGC, tail)));
    }
  }

  /** When `NumGC` never wrapped around, the increments sum exactly to the growth of `NumGC`. */
  lemma {:induction false} GcRunsExact(lastNumGC: U32, observed: seq<U32>)
    requires |observed| > 0 && NonDecreasing(lastNumGC, observed)
    ensures lastNumGC + Sum(GcRuns(lastNumGC, observed)) == observed[|observed| - 1]
    decreases |observed|
  {
    var s := GcTick(lastNumGC, observed[0]);
    var head: seq<U32> := if s.runs.Some? then [s.runs.value] else [];
    var tail := observed[1..];
    SumAppend(head, GcRuns(s.lastNumGC, tail));
    assert lastNumGC + Sum(head) == observed[0];
    if |tail| == 0 {
      assert GcRuns(s.lastNumGC, tail) == [];
    } else {
      assert NonDecreasing(observed[0], tail) by {
        forall i | 0 <= i < |tail| ensures observed[0] <= tail[i] {
          assert tail[i] == observed[i + 1];
        }
        forall i, j | 0 <= i < j < |tail| ensures tail[i] <= tail[j] {
          assert tail[i] == observed[i + 1] && tail[j] == observed[j + 1];
        }
      }
      GcRunsExact(s.lastNumGC, tail);
      assert tail[|tail| - 1] == observed[|observed| - 1];
    }
  }

  /** Replacing the left summand by something congruent modulo 2^32 keeps the sum's residue. */
  lemma ModAddLeft(a: int, b: int, c: int)
    requires a % TwoTo32 == b % TwoTo32
    ensures (a + c) % TwoTo32 == (b + c) % TwoTo32
  {
    var qa, qb := a / TwoTo32, b / TwoTo32;
    assert a == qa * TwoTo32 + a % TwoTo32;
    assert b == qb * TwoTo32 + b % TwoTo32;
    assert a + c == (b + c) + (qa - qb) * TwoTo32;
    ModShift(b + c, qa - qb);
  }

  lemma ModShift(x: int, k: int)
    ensures (x + k * TwoTo32) % TwoTo32 == x % TwoTo32
  {
  }

  lemma {:induction false} SumAppend(a: seq<U32>, b: seq<U32>)
    ensures Sum(a + b) == Sum(a) + Sum(b)
    decreases |a|
  {
    if |a| == 0 {
      assert a + b == b;
    } else {
      assert (a + b)[1..] == a[1..] + b;
      SumAppend(a[1..], b);
    }
  }

  /** What one tick reads: `runtime.MemStats` fields, `runtime.NumGoroutine()` and `runtime.NumCPU()`. */
  datatype Sample = Sample(alloc: nat, totalAlloc: nat, sys: nat, numGoroutine: nat, numCPU: nat, numGC: U32)

  /** The sampler's state between ticks: the shared telemetry state and its local `lastNumGC`. */
  datatype SamplerState = SamplerState(telemetry: Telemetry, lastNumGC: U32)

  /** The state after one or more ticks, and the events emitted in order. */
  datatype Ticked = Ticked(sampler: SamplerState, events: seq<Event>)

  /** The recording calls of one tick, in the order `updateSystemMetrics` issues them. */
  function TickCalls(lastNumGC: U32, sample: Sample): seq<Call> {
    [ Set("memory_alloc_bytes", sample.alloc as real, []),
      Set("memory_total_alloc_bytes", sample.totalAlloc as real, []),
      Set("memory_sys_bytes", sample.sys as real, []),
      Set("num_goroutines", sample.numGoroutine as real, []),
      Set("num_cpu", sample.numCPU as real, []) ]
    + match GcTick(lastNumGC, sample.numGC).runs
      case Some(runs) => [Increment("gc_runs_total", runs, [])]
      case None => []
  }

  /** One tick of `updateSystemMetrics`. */
  function Tick(s: SamplerState, meter: Meter, sample: Sample): (r: Ticked)
    ensures r.sampler.lastNumGC == sample.numGC
    // the sampler creates no gauge or histogram
    ensures r.sampler.telemetry.registry.gauges == s.telemetry.registry.gauges
    ensures r.sampler.telemetry.registry.histograms == s.telemetry.registry.histograms
  {
    var step := Run(s.telemetry, meter, TickCalls(s.lastNumGC, sample));
    Ticked(SamplerState(step.state, GcTick(s.lastNumGC, sample.numGC).lastNumGC), step.events)
  }

  /** Consecutive ticks over the observed samples. */
  function Ticks(s: SamplerState, meter: Meter, samples: seq<Sample>): (r: Ticked)
    ensures |samples| > 0 ==> r.sampler.lastNumGC == samples[|samples| - 1].numGC
    decreases |samples|
  {
    if |samples| == 0 then Ticked(s, [])
    else
      var first := Tick(s, meter, samples[0]);
      var rest := Ticks(first.sampler, meter, samples[1..]);
      Ticked(rest.sampler, first.events + rest.events)
  }

  /** All recording calls issued by consecutive ticks. */
  function SamplerCalls(lastNumGC: U32, samples: seq<Sample>): seq<Call>
    decreases |samples|
  {
    if |samples| == 0 then []
    else TickCalls(lastNumGC, samples[0]) + SamplerCalls(samples[0].numGC, samples[1..])
  }

  /** Running two call lists one after the other is running their concatenation. */
  lemma {:induction false} RunAppend(t: Telemetry, meter: Meter, a: seq<Call>, b: seq<Call>)
    ensures var ra := Run(t, meter, a);
            var rb := Run(ra.state, meter, b);
            Run(t, meter, a + b) == Step(rb.state, ra.events + rb.events)
    decreases |a|
  {
    if |a| == 0 {
      assert a + b == b;
    } else {
      assert (a + b)[0] == a[0] && (a + b)[1..] == a[1..] + b;
      var first := Apply(t, meter, a[0]);
      RunAppend(first.state, meter, a[1..], b);
      var rest := Run(first.state, meter, a[1..]);
      var rb := Run(rest.state, meter, b);
      assert Run(t, meter, a) == Step(rest.state, first.events + rest.events);
      assert Run(t, meter, a + b) == Step(rb.state, first.events + (rest.events + rb.events));
      assert first.events + (rest.events + rb.events) == (first.events + rest.events) + rb.events;
    }
  }

  /** Consecutive ticks emit exactly what their calls, run in one go, emit. */
  lemma {:induction false} TicksAreRun(s: SamplerState, meter: Meter, samples: seq<Sample>)
    ensures var r := Ticks(s, meter, samples);
            var run := Run(s.telemetry, meter, SamplerCalls(s.lastNumGC, samples));
            r.events == run.events && r.sampler.telemetry == run.state
    decreases |samples|
  {
    if |samples| > 0 {
      var first := Tick(s, meter, samples[0]);
      TicksAreRun(first.sampler, meter, samples[1..]);
      RunAppend(s.telemetry, meter, TickCalls(s.lastNumGC, samples[0]), SamplerCalls(samples[0].numGC, samples[1..]));
    }
  }

  lemma LastSetAppend(a: seq<Call>, b: seq<Call>, name: string, default: real)
    ensures LastSet(a + b, name, default) == LastSet(b, name, LastSet(a, name, default))
    decreases |a|
  {
    if |a| == 0 {
      assert a + b == b;
    } else {
      assert (a + b)[0] == a[0] && (a + b)[1..] == a[1..] + b;
      LastSetAppend(a[1..], b, name, if a[0].Set? && a[0].name == name then a[0].value else default);
    }
  }

  lemma IncrementTotalAppend(a: seq<Call>, b: seq<Call>, name: string)
    ensures IncrementTotal(a + b, name) == IncrementTotal(a, name) + IncrementTotal(b, name)
    decreases |a|
  {
    if |a| == 0 {
      assert a + b == b;
    } else {
      assert (a + b)[0] == a[0] && (a + b)[1..] == a[1..] + b;
      IncrementTotalAppend(a[1..], b, name);
    }
  }

  /** The increments the ticks ask of `gc_runs_total` are the GC-delta steps' increments. */
  lemma {:induction false} SamplerGcIncrements(lastNumGC: U32, samples: seq<Sample>)
    ensures IncrementTotal(SamplerCalls(lastNumGC, samples), "gc_runs_total") ==
            Sum(GcRuns(lastNumGC, NumGCs(samples)))
    decreases |samples|
  {
    if |samples| > 0 {
      var head := TickCalls(lastNumGC, samples[0]);
      IncrementTotalAppend(head, SamplerCalls(samples[0].numGC, samples[1..]), "gc_runs_total");
      SamplerGcIncrements(samples[0].numGC, samples[1..]);
      var g := GcTick(lastNumGC, samples[0].numGC);
      var emitted: seq<U32> := if g.runs.Some? then [g.runs.value] else [];
      var sets := head[..5];
      var inc := head[5..];
      assert head == sets + inc;
      IncrementTotalAppend(sets, inc, "gc_runs_total");
      assert IncrementTotal(sets[4..], "gc_runs_total") == 0;
      assert IncrementTotal(sets[3..], "gc_runs_total") == 0;
      assert IncrementTotal(sets[2..], "gc_runs_total") == 0;
      assert IncrementTotal(sets[1..], "gc_runs_total") == 0;
      assert IncrementTotal(sets, "gc_runs_total") == 0;
      assert IncrementTotal(inc, "gc_runs_total") == Sum(emitted);
      assert NumGCs(samples)[0] == samples[0].numGC && NumGCs(samples)[1..] == NumGCs(samples[1..]);
      SumAppend(emitted, GcRuns(g.lastNumGC, NumGCs(samples[1..])));
    }
  }

  /** The observed `NumGC` values. */
  function NumGCs(samples: seq<Sample>): (r: seq<U32>)
    ensures |r| == |samples|
    ensures forall i :: 0 <= i < |samples| ==> r[i] == samples[i].numGC
  {
    if |samples| == 0 then [] else [samples[0].numGC] + NumGCs(samples[1..])
  }

  /** The value a tick sets on gauge `name`, for the five sampled gauges. */
  function Reading(sample: Sample, name: string): Option<real> {
    if name == "memory_alloc_bytes" then Some(sample.alloc as real)
    else if name == "memory_total_alloc_bytes" then Some(sample.totalAlloc as real)
    else if name == "memory_sys_bytes" then Some(sample.sys as real)
    else if name == "num_goroutines" then Some(sample.numGoroutine as real)
    else if name == "num_cpu" then Some(sample.numCPU as real)
    else None
  }

  lemma LastSetTick(lastNumGC: U32, sample: Sample, name: string, default: real)
    ensures LastSet(TickCalls(lastNumGC, sample), name, default) ==
            match Reading(sample, name) case Some(v) => v case None => default
  {
    var calls := TickCalls(lastNumGC, sample);
    var sets := calls[..5];
    assert calls == sets + calls[5..];
    LastSetAppend(sets, calls[5..], name, default);
    var d0 := default;
    var d1 := if name == "memory_alloc_bytes" then sample.alloc as real else d0;
    var d2 := if name == "memory_total_alloc_bytes" then sample.totalAlloc as real else d1;
    var d3 := if name == "memory_sys_bytes" then sample.sys as real else d2;
    var d4 := if name == "num_goroutines" then sample.numGoroutine as real else d3;
    var d5 := if name == "num_cpu" then sample.numCPU as real else d4;
    assert LastSet(sets[5..], name, d5) == d5;
    assert LastSet(sets[4..], name, d4) == d5;
    assert LastSet(sets[3..], name, d3) == d5;
    assert LastSet(sets[2..], name, d2) == d5;
    assert LastSet(sets[1..], name, d1) == d5;
    assert LastSet(sets, name, d0) == d5;
    var after := calls[5..];
    assert |after| <= 1 && forall i :: 0 <= i < |after| ==> after[i].Increment?;
    assert LastSet(after, name, d5) == d5;
  }

  lemma {:induction false} LastSetSampler(lastNumGC: U32, samples: seq<Sample>, name: string, default: real)
    requires |samples| > 0 && Reading(samples[0], name).Some?
    ensures LastSet(SamplerCalls(lastNumGC, samples), name, default) == Reading(samples[|samples| - 1], name).value
    decreases |samples|
  {
    var head := TickCalls(lastNumGC, samples[0]);
    var tail := samples[1..];
    LastSetAppend(head, SamplerCalls(samples[0].numGC, tail), name, default);
    LastSetTick(lastNumGC, samples[0], name, default);
    if |tail| > 0 {
      LastSetSampler(samples[0].numGC, tail, name, LastSet(head, name, default));
    }
  }

  /**
   Each sampled gauge, declared and never set before, has received deltas that
   sum to its reading in the latest sample.
   */
  lemma SamplerGaugesTrackLastSample(s: SamplerState, meter: Meter, samples: seq<Sample>, name: string)
    requires |samples| > 0 && Reading(samples[0], name).Some?
    requires name in s.telemetry.registry.gauges && name !in s.telemetry.lastKnown
    ensures DeltaTotal(Ticks(s, meter, samples).events, name) == Reading(samples[|samples| - 1], name).value
  {
    TicksAreRun(s, meter, samples);
    GaugeConverges(s.telemetry, meter, SamplerCalls(s.lastNumGC, samples), name);
    LastSetSampler(s.lastNumGC, samples, name, 0.0);
  }

  /** With `gc_runs_total` declared, the ticks add to it exactly the GC-delta steps' increments. */
  lemma SamplerGcCounterTotal(s: SamplerState, meter: Meter, samples: seq<Sample>)
    requires "gc_runs_total" in s.telemetry.registry.counters
    ensures CounterTotal(Ticks(s, meter, samples).events, "gc_runs_total") == Sum(GcRuns(s.lastNumGC, NumGCs(samples)))
  {
    var calls := SamplerCalls(s.lastNumGC, samples);
    TicksAreRun(s, meter, samples);
    IncrementsAddUp(s.telemetry, meter, calls, "gc_runs_total");
    SamplerGcIncrements(s.lastNumGC, samples);
  }

  /**
   With `gc_runs_total` declared and `NumGC` never wrapping around, the ticks
   add to it exactly the growth of `NumGC` since the starting `lastNumGC`.
   */
  lemma SamplerGcCounterExact(s: SamplerState, meter: Meter, samples: seq<Sample>)
    requires |samples| > 0 && NonDecreasing(s.lastNumGC, NumGCs(samples))
    requires "gc_runs_total" in s.telemetry.registry.counters
    ensures s.lastNumGC + CounterTotal(Ticks(s, meter, samples).events, "gc_runs_total") == samples[|samples| - 1].numGC
  {
    SamplerGcCounterTotal(s, meter, samples);
    GcRunsExact(s.lastNumGC, NumGCs(samples));
  }
}
