/**
 The instrument registry: three independent name-to-instrument maps (counters,
 histograms, gauges) with get-or-create semantics. The OpenTelemetry meter that
 builds instruments is an abstract, possibly failing oracle passed to every
 creation call.
 */
module Registry {
  import opened Wrappers

  /** The three instrument kinds: Int64Counter, Float64Histogram, Float64UpDownCounter. */
  datatype Kind = Counter | Histogram | Gauge

  /** An instrument handed out by the meter; `serial` stands for its identity. */
  datatype Handle = Handle(serial: nat)

  /** The meter's instrument factory: (kind, name, description, unit) to an instrument or an error. */
  type Meter = (Kind, string, string, string) -> Result<Handle, string>

  /** The package-level maps `counters`, `histograms` and `gauges`. */
  datatype Registry = Registry(
    counters: map<string, Handle>,
    histograms: map<string, Handle>,
    gauges: map<string, Handle>)
  {
    /** The map holding instruments of kind `k`. */
    function Of(k: Kind): map<string, Handle> {
      match k
      case Counter => counters
      case Histogram => histograms
      case Gauge => gauges
    }

    /** This registry with the map for kind `k` replaced by `m`. */
    function Put(k: Kind, m: map<string, Handle>): Registry {
      match k
      case Counter => this.(counters := m)
      case Histogram => this.(histograms := m)
      case Gauge => this.(gauges := m)
    }
  }

  /** The registry at process start: all three maps empty. */
  const Empty := Registry(map[], map[], map[])

  /** `r` keeps every entry of `reg`, in every kind's map, with the same instrument. */
  ghost predicate Extends(reg: Registry, r: Registry) {
    forall k: Kind, n :: n in reg.Of(k) ==> n in r.Of(k) && r.Of(k)[n] == reg.Of(k)[n]
  }

  /** The registry after a creation call, and what the call returned. */
  datatype Created = Created(registry: Registry, result: Result<Handle, string>)

  /**
   Get-or-create on the map of one kind: an existing entry is returned without
   consulting the meter; otherwise the meter is asked, and only a successful
   answer is stored.
   */
  function GetOrCreate(reg: Registry, meter: Meter, kind: Kind, name: string, description: string, unit: string): (c: Created)
    // an existing instrument is returned and nothing changes
    ensures name in reg.Of(kind) ==> c == Created(reg, Ok(reg.Of(kind)[name]))
    // a new name gets whatever the meter answers
    ensures name !in reg.Of(kind) ==> c.result == meter(kind, name, description, unit)
    // on error nothing changes
    ensures c.result.Err? ==> c.registry == reg
    // on success exactly the one key is bound, to the returned instrument
    ensures c.result.Ok? ==> c.registry.Of(kind) == reg.Of(kind)[name := c.result.value]
    // the other kinds' maps are untouched
    ensures forall k :: k != kind ==> c.registry.Of(k) == reg.Of(k)
  {
    var m := reg.Of(kind);
    if name in m then Created(reg, Ok(m[name]))
    else
      match meter(kind, name, description, unit)
      case Err(e) => Created(reg, Err(e))
      case Ok(h) => Created(reg.Put(kind, m[name := h]), Ok(h))
  }

  /** `CreateCounter`: get-or-create on the counter map alone. */
  function CreateCounter(reg: Registry, meter: Meter, name: string, description: string, unit: string): (c: Created)
    ensures c.registry.histograms == reg.histograms && c.registry.gauges == reg.gauges
    ensures c.registry.counters.Keys <= reg.counters.Keys + {name}
    // every other entry of the map survives unchanged
    ensures forall n :: n in reg.counters && n != name ==> n in c.registry.counters && c.registry.counters[n] == reg.counters[n]
    // a new name gets whatever the meter answers
    ensures name !in reg.counters ==> c.result == meter(Counter, name, description, unit)
    ensures c.result.Ok? ==> name in c.registry.counters && c.registry.counters[name] == c.result.value
    ensures name in reg.counters ==> c == Created(reg, Ok(reg.counters[name]))
    ensures c.result.Err? ==> c.registry == reg && name !in reg.counters
  {
    GetOrCreate(reg, meter, Counter, name, description, unit)
  }

  /** `CreateHistogram`: get-or-create on the histogram map alone. */
  function CreateHistogram(reg: Registry, meter: Meter, name: string, description: string, unit: string): (c: Created)
    ensures c.registry.counters == reg.counters && c.registry.gauges == reg.gauges
    ensures c.registry.histograms.Keys <= reg.histograms.Keys + {name}
    // every other entry of the map survives unchanged
    ensures forall n :: n in reg.histograms && n != name ==> n in c.registry.histograms && c.registry.histograms[n] == reg.histograms[n]
    // a new name gets whatever the meter answers
    ensures name !in reg.histograms ==> c.result == meter(Histogram, name, description, unit)
    ensures c.result.Ok? ==> name in c.registry.histograms && c.registry.histograms[name] == c.result.value
    ensures name in reg.histograms ==> c == Created(reg, Ok(reg.histograms[name]))
    ensures c.result.Err? ==> c.registry == reg && name !in reg.histograms
  {
    GetOrCreate(reg, meter, Histogram, name, description, unit)
  }

  /** `CreateGauge`: get-or-create on the gauge map alone. */
  function CreateGauge(reg: Registry, meter: Meter, name: string, description: string, unit: string): (c: Created)
    ensures c.registry.counters == reg.counters && c.registry.histograms == reg.histograms
    ensures c.registry.gauges.Keys <= reg.gauges.Keys + {name}
    // every other entry of the map survives unchanged
    ensures forall n :: n in reg.gauges && n != name ==> n in c.registry.gauges && c.registry.gauges[n] == reg.gauges[n]
    // a new name gets whatever the meter answers
    ensures name !in reg.gauges ==> c.result == meter(Gauge, name, description, unit)
    ensures c.result.Ok? ==> name in c.registry.gauges && c.registry.gauges[name] == c.result.value
    ensures name in reg.gauges ==> c == Created(reg, Ok(reg.gauges[name]))
    ensures c.result.Err? ==> c.registry == reg && name !in reg.gauges
  {
    GetOrCreate(reg, meter, Gauge, name, description, unit)
  }

  /**
   `CreateDynamicCounter`: checks the counter map, then defers to `CreateCounter`,
   which checks it again; the result is always that of `CreateCounter`.
   */
  function CreateDynamicCounter(reg: Registry, meter: Meter, name: string, description: string, unit: string): (c: Created)
    ensures c == CreateCounter(reg, meter, name, description, unit)
  {
    if name in reg.counters then Created(reg, Ok(reg.counters[name]))
    else CreateCounter(reg, meter, name, description, unit)
  }

  /** Every creation call keeps all existing entries of all three maps. */
  lemma GetOrCreateExtends(reg: Registry, meter: Meter, kind: Kind, name: string, description: string, unit: string)
    ensures Extends(reg, GetOrCreate(reg, meter, kind, name, description, unit).registry)
  {
    var c := GetOrCreate(reg, meter, kind, name, description, unit);
    forall k: Kind, n | n in reg.Of(k) ensures n in c.registry.Of(k) && c.registry.Of(k)[n] == reg.Of(k)[n] {
      if k == kind && c.result.Ok? {
        assert c.registry.Of(k) == reg.Of(k)[name := c.result.value];
      }
    }
  }

  /**
   Asking twice for the same name and kind yields the same instrument, and the
   second call changes nothing, whatever the meter would answer the second time
   and whatever description or unit it is given.
   */
  lemma CreateTwiceSameInstrument(reg: Registry, m1: Meter, m2: Meter, kind: Kind, name: string,
                                  d1: string, u1: string, d2: string, u2: string)
    requires GetOrCreate(reg, m1, kind, name, d1, u1).result.Ok?
    ensures var c1 := GetOrCreate(reg, m1, kind, name, d1, u1);
            GetOrCreate(c1.registry, m2, kind, name, d2, u2) == c1
  {
    var c1 := GetOrCreate(reg, m1, kind, name, d1, u1);
    assert name in c1.registry.Of(kind);
  }
}
