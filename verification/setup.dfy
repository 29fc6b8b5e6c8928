/**
 `createMetrics`: the built-in instrument catalogue, declared in order, stopping
 at the first creation error.
 */
module Setup {
  import opened Wrappers
  import opened Registry

  /** One row of the catalogue table: name, description, unit and a metric-type tag. */
  datatype MetricSpec = MetricSpec(name: string, description: string, unit: string, metricType: string)

  /** The errors `createMetrics` returns. */
  datatype SetupError =
    | UnknownMetricType(metricType: string)   // "unknown metric type: %s"
    | CreateFailed(name: string, cause: string) // "failed to create %s: %w"

  /** The registry after the declarations, and the first error if any (`nil` is `None`). */
  datatype Setup = Setup(registry: Registry, error: Option<SetupError>)

  /** The built-in catalogue, in declaration order. */
  const BuiltIns: seq<MetricSpec> := [
    MetricSpec("memory_alloc_bytes", "Current memory allocation in bytes", "bytes", "gauge"),
    MetricSpec("memory_total_alloc_bytes", "Total memory allocation in bytes", "bytes", "gauge"),
    MetricSpec("memory_sys_bytes", "System memory obtained in bytes", "bytes", "gauge"),
    MetricSpec("num_goroutines", "Number of goroutines", "", "gauge"),
    MetricSpec("num_cpu", "Number of CPUs", "", "gauge"),
    MetricSpec("gc_runs_total", "Total number of completed GC cycles", "", "counter"),
    MetricSpec("http_request_duration_seconds", "HTTP request duration in seconds", "s", "histogram"),
    MetricSpec("http_requests_total", "Total number of HTTP requests", "", "counter")
  ]

  /** The `switch` on the metric-type tag. */
  function KindOf(metricType: string): Option<Kind> {
    if metricType == "counter" then Some(Counter)
    else if metricType == "gauge" then Some(Gauge)
    else if metricType == "histogram" then Some(Histogram)
    else None
  }

  /** The creation function the `switch` selects for a kind. */
  function CreateOfKind(reg: Registry, meter: Meter, k: Kind, s: MetricSpec): (c: Created)
    ensures c == GetOrCreate(reg, meter, k, s.name, s.description, s.unit)
  {
    match k
    case Counter => CreateCounter(reg, meter, s.name, s.description, s.unit)
    case Gauge => CreateGauge(reg, meter, s.name, s.description, s.unit)
    case Histogram => CreateHistogram(reg, meter, s.name, s.description, s.unit)
  }

  /** Whether the meter accepts the declaration of `s`: a known tag and a successful factory call. */
  predicate Accepted(meter: Meter, s: MetricSpec) {
    KindOf(s.metricType).Some? &&
    meter(KindOf(s.metricType).value, s.name, s.description, s.unit).Ok?
  }

  /** `s` is declared in `reg`: its tag is known and its name is in that kind's map. */
  predicate Declared(reg: Registry, s: MetricSpec) {
    KindOf(s.metricType).Some? && s.name in reg.Of(KindOf(s.metricType).value)
  }

  /** No two rows of `specs` share a name. */
  predicate DistinctNames(specs: seq<MetricSpec>) {
    forall i, j :: 0 <= i < j < |specs| ==> specs[i].name != specs[j].name
  }

  /** The names of the rows of `specs` whose tag selects kind `k`. */
  function NamesOfKind(specs: seq<MetricSpec>, k: Kind): set<string> {
    if |specs| == 0 then {}
    else (if KindOf(specs[0].metricType) == Some(k) then {specs[0].name} else {}) + NamesOfKind(specs[1..], k)
  }

  /** The loop of `createMetrics` over an arbitrary table. */
  function CreateAll(reg: Registry, meter: Meter, specs: seq<MetricSpec>): (s: Setup)
    // every entry already present survives with its instrument
    ensures Extends(reg, s.registry)
    // success means every row was declared
    ensures s.error.None? ==> forall i :: 0 <= i < |specs| ==> Declared(s.registry, specs[i])
    // the only new names are names of rows
    ensures forall k: Kind :: s.registry.Of(k).Keys <= reg.Of(k).Keys + NamesOfKind(specs, k)
    // and on success the maps gain exactly the rows' names
    ensures s.error.None? ==> forall k: Kind :: s.registry.Of(k).Keys == reg.Of(k).Keys + NamesOfKind(specs, k)
    decreases |specs|
  {
    if |specs| == 0 then Setup(reg, None)
    else
      var spec := specs[0];
      match KindOf(spec.metricType)
      case None => Setup(reg, Some(UnknownMetricType(spec.metricType)))
      case Some(k) =>
        var c := CreateOfKind(reg, meter, k, spec);
        match c.result
        case Err(e) => Setup(c.registry, Some(CreateFailed(spec.name, e)))
        case Ok(_) =>
          var rest := CreateAll(c.registry, meter, specs[1..]);
          assert forall i :: 0 <= i < |specs| - 1 ==> specs[1..][i] == specs[i + 1];
          GetOrCreateExtends(reg, meter, k, spec.name, spec.description, spec.unit);
          rest
  }

  /** `createMetrics` itself: `CreateAll` over the built-in catalogue. */
  function CreateMetrics(reg: Registry, meter: Meter): Setup {
    CreateAll(reg, meter, BuiltIns)
  }

  /**
   The error `createMetrics` reports for row `spec`: the unknown tag, or the
   meter's own error for that row wrapped with the row's name.
   */
  predicate Blames(meter: Meter, e: SetupError, spec: MetricSpec) {
    match KindOf(spec.metricType)
    case None => e == UnknownMetricType(spec.metricType)
    case Some(k) =>
      && meter(k, spec.name, spec.description, spec.unit).Err?
      && e == CreateFailed(spec.name, meter(k, spec.name, spec.description, spec.unit).error)
  }

  /**
   `CreateAll` over `specs` stopped at row `i`: every earlier row succeeded,
   the error is the one row `i` produced, and no later row was attempted (the outcome is the
   one of the table cut just after row `i`).
   */
  predicate StopsAt(reg: Registry, meter: Meter, specs: seq<MetricSpec>, i: nat)
    requires i < |specs|
  {
    var s := CreateAll(reg, meter, specs);
    && s.error.Some?
    && CreateAll(reg, meter, specs[..i]).error.None?
    && CreateAll(reg, meter, specs[..i + 1]) == s
    && Blames(meter, s.error.value, specs[i])
  }

  /** A failing `CreateAll` stopped at the first row that failed. */
  lemma {:induction false} CreateAllStopsAtFirstError(reg: Registry, meter: Meter, specs: seq<MetricSpec>)
    requires CreateAll(reg, meter, specs).error.Some?
    ensures exists i: nat :: i < |specs| && StopsAt(reg, meter, specs, i)
    decreases |specs|
  {
    var k := KindOf(specs[0].metricType);
    if k.None? || CreateOfKind(reg, meter, k.value, specs[0]).result.Err? {
      StopsAtFirstRow(reg, meter, specs);
    } else {
      var c := CreateOfKind(reg, meter, k.value, specs[0]);
      var tail := specs[1..];
      assert CreateAll(reg, meter, specs) == CreateAll(c.registry, meter, tail);
      CreateAllStopsAtFirstError(c.registry, meter, tail);
      var j: nat :| j < |tail| && StopsAt(c.registry, meter, tail, j);
      StopsLater(reg, meter, specs, c, j);
    }
  }

  /** A table whose first row fails stops there. */
  lemma StopsAtFirstRow(reg: Registry, meter: Meter, specs: seq<MetricSpec>)
    requires |specs| > 0
    requires KindOf(specs[0].metricType).None? ||
             CreateOfKind(reg, meter, KindOf(specs[0].metricType).value, specs[0]).result.Err?
    ensures StopsAt(reg, meter, specs, 0)
  {
    assert specs[..1] == [specs[0]];
    assert CreateAll(reg, meter, specs[..0]).error.None?;
  }

  /** A table whose first row succeeds stops one row later than its tail does. */
  lemma StopsLater(reg: Registry, meter: Meter, specs: seq<MetricSpec>, c: Created, j: nat)
    requires |specs| > 0 && KindOf(specs[0].metricType).Some?
    requires c == CreateOfKind(reg, meter, KindOf(specs[0].metricType).value, specs[0]) && c.result.Ok?
    requires j < |specs| - 1 && StopsAt(c.registry, meter, specs[1..], j)
    ensures StopsAt(reg, meter, specs, j + 1)
  {
    ShiftPrefix(reg, meter, specs, c, j);
    ShiftPrefix(reg, meter, specs, c, j + 1);
    assert specs[1..][j] == specs[j + 1];
    assert CreateAll(reg, meter, specs) == CreateAll(c.registry, meter, specs[1..]);
  }

  /** Cutting a table whose first row succeeded is cutting its tail one row earlier. */
  lemma ShiftPrefix(reg: Registry, meter: Meter, specs: seq<MetricSpec>, c: Created, j: nat)
    requires j < |specs| && KindOf(specs[0].metricType).Some?
    requires c == CreateOfKind(reg, meter, KindOf(specs[0].metricType).value, specs[0]) && c.result.Ok?
    ensures CreateAll(reg, meter, specs[..j + 1]) == CreateAll(c.registry, meter, specs[1..][..j])
  {
    var cut := specs[..j + 1];
    assert cut[0] == specs[0];
    assert cut[1..] == specs[1..][..j];
  }

  /** When the meter accepts every row, `CreateAll` succeeds. */
  lemma {:induction false} CreateAllSucceeds(reg: Registry, meter: Meter, specs: seq<MetricSpec>)
    requires forall i :: 0 <= i < |specs| ==> Accepted(meter, specs[i])
    ensures CreateAll(reg, meter, specs).error.None?
    decreases |specs|
  {
    if |specs| > 0 {
      var spec := specs[0];
      assert Accepted(meter, spec);
      var k := KindOf(spec.metricType).value;
      var c := CreateOfKind(reg, meter, k, spec);
      assert c.result.Ok?;
      assert forall i :: 0 <= i < |specs| - 1 ==> specs[1..][i] == specs[i + 1];
      CreateAllSucceeds(c.registry, meter, specs[1..]);
    }
  }

  /** No row with a known tag is already in its kind's map. */
  predicate Fresh(reg: Registry, specs: seq<MetricSpec>) {
    forall i :: 0 <= i < |specs| && KindOf(specs[i].metricType).Some? ==>
      specs[i].name !in reg.Of(KindOf(specs[i].metricType).value)
  }

  /** The instrument the meter hands out for an accepted row. */
  function Answer(meter: Meter, spec: MetricSpec): Handle
    requires Accepted(meter, spec)
  {
    meter(KindOf(spec.metricType).value, spec.name, spec.description, spec.unit).value
  }

  /** The instrument `reg` binds a declared row's name to. */
  function Bound(reg: Registry, spec: MetricSpec): Handle
    requires Declared(reg, spec)
  {
    reg.Of(KindOf(spec.metricType).value)[spec.name]
  }

  /**
   Over fresh, distinctly named rows, `CreateAll` succeeds exactly when the meter
   accepts every row, and then binds each row's name to the meter's instrument.
   */
  lemma {:induction false} CreateAllFresh(reg: Registry, meter: Meter, specs: seq<MetricSpec>)
    requires DistinctNames(specs) && Fresh(reg, specs)
    ensures CreateAll(reg, meter, specs).error.None? <==>
              forall i :: 0 <= i < |specs| ==> Accepted(meter, specs[i])
    ensures CreateAll(reg, meter, specs).error.None? ==>
              forall i :: 0 <= i < |specs| ==>
                Accepted(meter, specs[i]) && Declared(CreateAll(reg, meter, specs).registry, specs[i]) &&
                Bound(CreateAll(reg, meter, specs).registry, specs[i]) == Answer(meter, specs[i])
    decreases |specs|
  {
    var s := CreateAll(reg, meter, specs);
    if |specs| > 0 {
      var spec := specs[0];
      if KindOf(spec.metricType).Some? {
        var k := KindOf(spec.metricType).value;
        var c := CreateOfKind(reg, meter, k, spec);
        if c.result.Ok? {
          var tail := specs[1..];
          assert forall i :: 0 <= i < |tail| ==> tail[i] == specs[i + 1];
          assert Fresh(c.registry, tail) by {
            forall i | 0 <= i < |tail| && KindOf(tail[i].metricType).Some?
              ensures tail[i].name !in c.registry.Of(KindOf(tail[i].metricType).value)
            {
              assert tail[i].name != spec.name;
            }
          }
          CreateAllFresh(c.registry, meter, tail);
          assert s == CreateAll(c.registry, meter, tail);
          if s.error.None? {
            assert Accepted(meter, spec);
            forall i | 0 <= i < |specs|
              ensures Accepted(meter, specs[i]) && Declared(s.registry, specs[i]) &&
                      Bound(s.registry, specs[i]) == Answer(meter, specs[i])
            {
              if i > 0 {
                assert specs[i] == tail[i - 1];
              }
            }
          }
        }
      }
    }
  }

  /** The built-in catalogue names every instrument once. */
  lemma BuiltInsDistinct()
    ensures DistinctNames(BuiltIns)
  {
  }

  /** The catalogue declares two counters, one histogram and five gauges. */
  lemma BuiltInCatalogue()
    ensures NamesOfKind(BuiltIns, Counter) == {"gc_runs_total", "http_requests_total"}
    ensures NamesOfKind(BuiltIns, Histogram) == {"http_request_duration_seconds"}
    ensures NamesOfKind(BuiltIns, Gauge) == {"memory_alloc_bytes", "memory_total_alloc_bytes",
                                             "memory_sys_bytes", "num_goroutines", "num_cpu"}
  {
  }

  /**
   From an empty registry, `createMetrics` returns `nil` exactly when the meter
   accepts all eight declarations.
   */
  lemma CreateMetricsSucceedsIff(meter: Meter)
    ensures CreateMetrics(Empty, meter).error.None? <==>
              forall i :: 0 <= i < |BuiltIns| ==> Accepted(meter, BuiltIns[i])
  {
    BuiltInsDistinct();
    CreateAllFresh(Empty, meter, BuiltIns);
  }

  /**
   When `createMetrics` succeeds from an empty registry the maps hold exactly the
   catalogue: two counters, one histogram and five gauges.
   */
  lemma CreateMetricsCatalogue(meter: Meter)
    requires CreateMetrics(Empty, meter).error.None?
    ensures CreateMetrics(Empty, meter).registry.counters.Keys == {"gc_runs_total", "http_requests_total"}
    ensures CreateMetrics(Empty, meter).registry.histograms.Keys == {"http_request_duration_seconds"}
    ensures CreateMetrics(Empty, meter).registry.gauges.Keys ==
              {"memory_alloc_bytes", "memory_total_alloc_bytes", "memory_sys_bytes", "num_goroutines", "num_cpu"}
  {
    var s := CreateAll(Empty, meter, BuiltIns);
    assert s.registry.Of(Counter).Keys == Empty.Of(Counter).Keys + NamesOfKind(BuiltIns, Counter);
    assert s.registry.Of(Histogram).Keys == Empty.Of(Histogram).Keys + NamesOfKind(BuiltIns, Histogram);
    assert s.registry.Of(Gauge).Keys == Empty.Of(Gauge).Keys + NamesOfKind(BuiltIns, Gauge);
    BuiltInCatalogue();
  }

  /**
   When `createMetrics` succeeds from an empty registry, each catalogue name is
   bound to the instrument the meter handed out for it.
   */
  lemma CreateMetricsBindings(meter: Meter)
    requires CreateMetrics(Empty, meter).error.None?
    ensures forall i :: 0 <= i < |BuiltIns| ==>
              var r := CreateMetrics(Empty, meter).registry;
              Accepted(meter, BuiltIns[i]) && Declared(r, BuiltIns[i]) && Bound(r, BuiltIns[i]) == Answer(meter, BuiltIns[i])
  {
    BuiltInsDistinct();
    CreateAllFresh(Empty, meter, BuiltIns);
  }
}
