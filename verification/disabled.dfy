/**
 Disabled mode. When `InitTelemetry` is called with telemetry disabled it
 returns before assigning the package-level `meter`, which stays a nil
 `metric.Meter` interface, and `createMetrics` never runs. `IncrementCounter`
 on a name not yet in the counter map then calls `meter.Int64Counter` on that
 nil interface, which panics. `StartSpan` guards its nil `tracer`; the
 counter path has no such guard.
 */
module DisabledMode {
  import opened Registry
  import opened Recording

  /** The package-level `meter` variable: nil unless telemetry was enabled. */
  datatype MeterVar = NilMeter | LiveMeter(meter: Meter)

  /** How a call ends: it returns the next state, or it panics. */
  datatype Outcome = Returned(step: Step) | Panicked

  /**
   `IncrementCounter` as written: a counter already in the map is used; a new
   name reaches the meter, and a nil meter panics there.
   */
  function IncrementCounterAsWritten(t: Telemetry, m: MeterVar, name: string, value: int, labels: seq<Label>): (o: Outcome)
    // it panics exactly when the meter is nil and the counter has to be created
    ensures o.Panicked? <==> m.NilMeter? && name !in t.registry.counters
    // with a live meter it is the recording call of the enabled mode
    ensures m.LiveMeter? ==> o.Returned? && o.step.events == IncrementCounter(t, m.meter, name, value, labels).events
  {
    match m
    case LiveMeter(meter) => Returned(IncrementCounter(t, meter, name, value, labels))
    case NilMeter =>
      if name in t.registry.counters then Returned(Step(t, [CounterAdd(name, t.registry.counters[name], value, labels)]))
      else Panicked
  }

  /**
   In disabled mode the maps stay empty, so the first increment a request makes,
   on `http_requests_total`, panics.
   */
  lemma DisabledRequestPanics(lastKnown: map<string, real>, labels: seq<Label>)
    ensures IncrementCounterAsWritten(Telemetry(Empty, lastKnown), NilMeter, "http_requests_total", 1, labels).Panicked?
  {
  }

  /**
   `IncrementCounter` with the nil guard `StartSpan` has: without a meter a
   missing counter is skipped, as the no-op meter provider installed in
   disabled mode would do.
   */
  function IncrementCounterGuarded(t: Telemetry, m: MeterVar, name: string, value: int, labels: seq<Label>): (s: Step)
    // enabled mode is unchanged
    ensures m.LiveMeter? ==> s == IncrementCounter(t, m.meter, name, value, labels)
    // disabled mode never changes the state, and records nothing on a missing counter
    ensures m.NilMeter? ==> s.state == t
    ensures m.NilMeter? && name !in t.registry.counters ==> s.events == []
    // wherever the code as written returns, the guarded call does the same
    ensures IncrementCounterAsWritten(t, m, name, value, labels).Returned? ==>
              s == IncrementCounterAsWritten(t, m, name, value, labels).step
  {
    match m
    case LiveMeter(meter) => IncrementCounter(t, meter, name, value, labels)
    case NilMeter =>
      if name in t.registry.counters then Step(t, [CounterAdd(name, t.registry.counters[name], value, labels)])
      else Step(t, [])
  }

  /** With the guard, a disabled-mode increment from empty maps returns and does nothing. */
  lemma DisabledRequestGuarded(lastKnown: map<string, real>, name: string, value: int, labels: seq<Label>)
    ensures IncrementCounterGuarded(Telemetry(Empty, lastKnown), NilMeter, name, value, labels)
              == Step(Telemetry(Empty, lastKnown), [])
  {
  }
}
