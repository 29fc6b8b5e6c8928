/**
 The recording API over the registry: `IncrementCounter`, `RecordHistogram`,
 and the gauge adapter `SetGauge`/`getGaugeValue`, which fakes an absolute
 "set" on an add-only up/down counter. Every call returns the next state and
 the events it emitted: instrument updates and the warnings it logs.
 */
module Recording {
  import opened Wrappers
  import opened Registry

  /** An attribute value: `attribute.String` or `attribute.Int`. */
  datatype LabelValue = Text(text: string) | Number(number: int)

  /** One `attribute.KeyValue`. */
  datatype Label = Label(key: string, value: LabelValue)

  /** What a recording call does that can be observed from outside. */
  datatype Event =
    | CounterAdd(name: string, counter: Handle, amount: int, labels: seq<Label>)
    | HistogramRecord(name: string, histogram: Handle, value: real, labels: seq<Label>)
    | GaugeAdd(name: string, gauge: Handle, delta: real, labels: seq<Label>)
    | CounterCreateFailed(name: string, cause: string)  // "Warning: Failed to create counter"
    | HistogramMissing(name: string)                    // "Warning: Histogram '%s' not found"

  /** The package-level state: the instrument maps and `lastKnownValues`. */
  datatype Telemetry = Telemetry(registry: Registry, lastKnown: map<string, real>)

  /** The state after a call, and the events the call emitted in order. */
  datatype Step = Step(state: Telemetry, events: seq<Event>)

  /** The description given to a counter created on first use. */
  function DynamicDescription(name: string): string {
    "Dynamic counter for " + name
  }

  /**
   `IncrementCounter`: get-or-create the counter (with the dynamic description
   and an empty unit), then add `value`; a creation error is logged and the
   increment dropped.
   */
  function IncrementCounter(t: Telemetry, meter: Meter, name: string, value: int, labels: seq<Label>): (s: Step)
    ensures s.state.lastKnown == t.lastKnown
    ensures s.state.registry.histograms == t.registry.histograms
    ensures s.state.registry.gauges == t.registry.gauges
    ensures |s.events| == 1
    // the increment happens iff the counter exists or the meter creates it
    ensures s.events[0].CounterAdd? <==>
              name in t.registry.counters || meter(Counter, name, DynamicDescription(name), "").Ok?
    // it goes to the counter now stored under `name`, with the caller's amount and labels
    ensures s.events[0].CounterAdd? ==>
              && name in s.state.registry.counters
              && s.events[0] == CounterAdd(name, s.state.registry.counters[name], value, labels)
              && s.state.registry.counters == t.registry.counters[name := s.events[0].counter]
    // a counter created on first use is the meter's instrument
    ensures name !in t.registry.counters && s.events[0].CounterAdd? ==>
              s.events[0].counter == meter(Counter, name, DynamicDescription(name), "").value
    // an existing counter is used as it is
    ensures name in t.registry.counters ==> s.state == t
    // a failed creation only logs
    ensures !s.events[0].CounterAdd? ==>
              s.state == t && s.events[0] == CounterCreateFailed(name, meter(Counter, name, DynamicDescription(name), "").error)
  {
    var c := CreateDynamicCounter(t.registry, meter, name, DynamicDescription(name), "");
    match c.result
    case Err(e) => Step(t.(registry := c.registry), [CounterCreateFailed(name, e)])
    case Ok(h) => Step(t.(registry := c.registry), [CounterAdd(name, h, value, labels)])
  }

  /** `RecordHistogram`: records only on a histogram that was declared; never creates one. */
  function RecordHistogram(t: Telemetry, name: string, value: real, labels: seq<Label>): (s: Step)
    ensures s.state == t
    ensures |s.events| == 1
    ensures s.events[0].HistogramRecord? <==> name in t.registry.histograms
    ensures name in t.registry.histograms ==>
              s.events[0] == HistogramRecord(name, t.registry.histograms[name], value, labels)
    ensures name !in t.registry.histograms ==> s.events[0] == HistogramMissing(name)
  {
    if name in t.registry.histograms then
      Step(t, [HistogramRecord(name, t.registry.histograms[name], value, labels)])
    else
      Step(t, [HistogramMissing(name)])
  }

  /** `getGaugeValue`: the last value set for `name`; Go's zero value 0 when none was. */
  function GaugeValue(t: Telemetry, name: string): real {
    if name in t.lastKnown then t.lastKnown[name] else 0.0
  }

  /**
   `SetGauge`: on a declared gauge, add the difference between `value` and the
   last known value, then remember `value`; on an undeclared name, nothing.
   */
  function SetGauge(t: Telemetry, name: string, value: real, labels: seq<Label>): (s: Step)
    ensures s.state.registry == t.registry
    // afterwards the gauge reads `value`, and the delta added is what closes the gap
    ensures name in t.registry.gauges ==>
              && GaugeValue(s.state, name) == value
              && |s.events| == 1 && s.events[0].GaugeAdd?
              && s.events[0].name == name && s.events[0].gauge == t.registry.gauges[name]
              && s.events[0].labels == labels
              && GaugeValue(t, name) + s.events[0].delta == value
    ensures name !in t.registry.gauges ==> s == Step(t, [])
    // no other gauge's last value moves
    ensures forall n :: n != name ==> GaugeValue(s.state, n) == GaugeValue(t, n)
  {
    if name in t.registry.gauges then
      var diff := value - GaugeValue(t, name);
      Step(t.(lastKnown := t.lastKnown[name := value]), [GaugeAdd(name, t.registry.gauges[name], diff, labels)])
    else
      Step(t, [])
  }

  /** One call of the recording API, as the sampler and the middleware issue them. */
  datatype Call =
    | Increment(name: string, amount: int, labels: seq<Label>)
    | Record(name: string, value: real, labels: seq<Label>)
    | Set(name: string, value: real, labels: seq<Label>)

  /** Performs one call. */
  function Apply(t: Telemetry, meter: Meter, c: Call): Step {
    match c
    case Increment(n, a, l) => IncrementCounter(t, meter, n, a, l)
    case Record(n, v, l) => RecordHistogram(t, n, v, l)
    case Set(n, v, l) => SetGauge(t, n, v, l)
  }

  /** Performs the calls in order, concatenating their events. */
  function Run(t: Telemetry, meter: Meter, calls: seq<Call>): (s: Step)
    // no call removes or rebinds a counter, or touches histograms and gauges
    ensures s.state.registry.histograms == t.registry.histograms
    ensures s.state.registry.gauges == t.registry.gauges
    ensures forall n :: n in t.registry.counters ==>
              n in s.state.registry.counters && s.state.registry.counters[n] == t.registry.counters[n]
    decreases |calls|
  {
    if |calls| == 0 then Step(t, [])
    else
      var first := Apply(t, meter, calls[0]);
      var rest := Run(first.state, meter, calls[1..]);
      Step(rest.state, first.events + rest.events)
  }
}
