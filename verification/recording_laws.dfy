/**
 Laws of sequences of recording calls: the gauge adapter's deltas always add up
 to the last value set, and a counter's increments add up to the amounts asked for.
 */
module RecordingLaws {
  import opened Registry
  import opened Recording

  /** The sum of the deltas added to gauge `name` by `events`. */
  function DeltaTotal(events: seq<Event>, name: string): real {
    if |events| == 0 then 0.0
    else (if events[0].GaugeAdd? && events[0].name == name then events[0].delta else 0.0)
         + DeltaTotal(events[1..], name)
  }

  /** The sum of the amounts added to counter `name` by `events`. */
  function CounterTotal(events: seq<Event>, name: string): int {
    if |events| == 0 then 0
    else (if events[0].CounterAdd? && events[0].name == name then events[0].amount else 0)
         + CounterTotal(events[1..], name)
  }

  lemma {:induction false} DeltaTotalAppend(a: seq<Event>, b: seq<Event>, name: string)
    ensures DeltaTotal(a + b, name) == DeltaTotal(a, name) + DeltaTotal(b, name)
    decreases |a|
  {
    if |a| > 0 {
      assert (a + b)[1..] == a[1..] + b;
      DeltaTotalAppend(a[1..], b, name);
    } else {
      assert a + b == b;
    }
  }

  lemma {:induction false} CounterTotalAppend(a: seq<Event>, b: seq<Event>, name: string)
    ensures CounterTotal(a + b, name) == CounterTotal(a, name) + CounterTotal(b, name)
    decreases |a|
  {
    if |a| > 0 {
      assert (a + b)[1..] == a[1..] + b;
      CounterTotalAppend(a[1..], b, name);
    } else {
      assert a + b == b;
    }
  }

  /** The value of the last `Set` on `name` among `calls`, or `default` when there is none. */
  function LastSet(calls: seq<Call>, name: string, default: real): real
    decreases |calls|
  {
    if |calls| == 0 then default
    else LastSet(calls[1..], name, if calls[0].Set? && calls[0].name == name then calls[0].value else default)
  }

  /** The sum of the amounts of the `Increment` calls on `name`. */
  function IncrementTotal(calls: seq<Call>, name: string): int
    decreases |calls|
  {
    if |calls| == 0 then 0
    else (if calls[0].Increment? && calls[0].name == name then calls[0].amount else 0)
         + IncrementTotal(calls[1..], name)
  }

  /**
   The adapter's invariant: over any run, the deltas added to a gauge sum to the
   change in its last known value.
   */
  lemma {:induction false} GaugeDeltasTelescope(t: Telemetry, meter: Meter, calls: seq<Call>, name: string)
    ensures var s := Run(t, meter, calls);
            DeltaTotal(s.events, name) == GaugeValue(s.state, name) - GaugeValue(t, name)
    decreases |calls|
  {
    if |calls| > 0 {
      var first := Apply(t, meter, calls[0]);
      var rest := Run(first.state, meter, calls[1..]);
      GaugeDeltasTelescope(first.state, meter, calls[1..], name);
      DeltaTotalAppend(first.events, rest.events, name);
      match calls[0]
      case Increment(n, a, l) =>
        assert DeltaTotal(first.events, name) == 0.0;
      case Record(n, v, l) =>
        assert DeltaTotal(first.events, name) == 0.0;
      case Set(n, v, l) =>
        if n in t.registry.gauges {
          assert DeltaTotal(first.events[1..], name) == 0.0;
        }
    }
  }

  /** On a declared gauge, the last known value after a run is the last value set during it. */
  lemma {:induction false} GaugeValueIsLastSet(t: Telemetry, meter: Meter, calls: seq<Call>, name: string)
    requires name in t.registry.gauges
    ensures GaugeValue(Run(t, meter, calls).state, name) == LastSet(calls, name, GaugeValue(t, name))
    decreases |calls|
  {
    if |calls| > 0 {
      var first := Apply(t, meter, calls[0]);
      GaugeValueIsLastSet(first.state, meter, calls[1..], name);
    }
  }

  /**
   The gauge property the adapter exists for: starting from no remembered value,
   the deltas added to a declared gauge sum to the last value set, whatever the
   values in between (0 when it was never set).
   */
  lemma GaugeConverges(t: Telemetry, meter: Meter, calls: seq<Call>, name: string)
    requires name in t.registry.gauges && name !in t.lastKnown
    ensures DeltaTotal(Run(t, meter, calls).events, name) == LastSet(calls, name, 0.0)
  {
    GaugeDeltasTelescope(t, meter, calls, name);
    GaugeValueIsLastSet(t, meter, calls, name);
  }

  /** An undeclared gauge receives no delta and keeps its last known value. */
  lemma {:induction false} UndeclaredGaugeUntouched(t: Telemetry, meter: Meter, calls: seq<Call>, name: string)
    requires name !in t.registry.gauges
    ensures DeltaTotal(Run(t, meter, calls).events, name) == 0.0
    ensures GaugeValue(Run(t, meter, calls).state, name) == GaugeValue(t, name)
    decreases |calls|
  {
    if |calls| > 0 {
      var first := Apply(t, meter, calls[0]);
      var rest := Run(first.state, meter, calls[1..]);
      UndeclaredGaugeUntouched(first.state, meter, calls[1..], name);
      DeltaTotalAppend(first.events, rest.events, name);
      match calls[0]
      case Increment(n, a, l) =>
        assert DeltaTotal(first.events, name) == 0.0;
      case Record(n, v, l) =>
        assert DeltaTotal(first.events, name) == 0.0;
      case Set(n, v, l) =>
        assert first.events == [] || first.events[0].name != name;
        assert DeltaTotal(first.events, name) == 0.0;
    }
  }

  /**
   On a counter that exists, or that the meter creates on first use, no
   increment is lost: the amounts added sum to the amounts of the `Increment`
   calls on it (T calls of 1 add exactly T).
   */
  lemma {:induction false} IncrementsAddUp(t: Telemetry, meter: Meter, calls: seq<Call>, name: string)
    requires name in t.registry.counters || meter(Counter, name, DynamicDescription(name), "").Ok?
    ensures CounterTotal(Run(t, meter, calls).events, name) == IncrementTotal(calls, name)
    decreases |calls|
  {
    if |calls| > 0 {
      var first := Apply(t, meter, calls[0]);
      var rest := Run(first.state, meter, calls[1..]);
      IncrementsAddUp(first.state, meter, calls[1..], name);
      CounterTotalAppend(first.events, rest.events, name);
      match calls[0]
      case Increment(n, a, l) =>
        assert CounterTotal(first.events[1..], name) == 0;
      case Record(n, v, l) =>
        assert CounterTotal(first.events[1..], name) == 0;
      case Set(n, v, l) =>
        assert CounterTotal(first.events, name) == 0;
    }
  }
}
