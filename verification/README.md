# Observability bookkeeping, modelled in Dafny

This project models the bookkeeping inside the Go package
`internal/observability` of a web-service skeleton: the part of the
OpenTelemetry facade that is plain logic once the SDK calls are abstracted.

- **Metric names** (`names.dfy`, module `Names`): `sanitizePath`, the ASCII
  case mapping of `strings.ToLower`, and the per-route counter name
  `http_requests_<lower(method)>_<sanitizePath(path)>`.
- **Instrument registry** (`registry.dfy`, module `Registry`): the three
  package-level maps `counters`, `histograms` and `gauges` with get-or-create
  semantics (`CreateCounter`, `CreateHistogram`, `CreateGauge`,
  `CreateDynamicCounter`). The OpenTelemetry meter is a `Meter` function
  passed to every creation call; it may answer with an instrument `Handle` or
  an error.
- **Built-in catalogue** (`setup.dfy`, module `Setup`): `createMetrics`,
  generalised to any table of declarations (`CreateAll`) and applied to the
  eight built-in instruments.
- **Recording API** (`recording.dfy`, module `Recording`): `IncrementCounter`
  (lazy creation with the description `Dynamic counter for <name>`),
  `RecordHistogram` (never creates), and the gauge adapter
  `SetGauge`/`getGaugeValue`, which fakes "set" on an add-only up/down counter.
  Every call returns the next state and the events it emitted. Events are
  instrument updates and the warnings the code logs. `Run` performs a sequence
  of calls. `recording_laws.dfy` (module `RecordingLaws`) proves what such
  sequences add up to.
- **System sampler** (`sampler.dfy`, module `Sampler`): one tick of
  `updateSystemMetrics` over an observed runtime sample. The GC-delta step is
  done in `uint32` arithmetic, modulo 2^32.
- **Request middleware** (`middleware.dfy`, module `Middleware`): the
  `customResponseWriter` status capture, and the three metric calls
  `TraceMiddleware` makes after the handler returns.
- **Disabled mode** (`disabled.dfy`, module `DisabledMode`): the nil `meter`
  left behind when telemetry is disabled, and what `IncrementCounter` does
  with it (see Findings).

Behaviour of the code worth knowing, which the model keeps:

- `customResponseWriter.WriteHeader` (observability.go:336-339) overwrites
  `statusCode` on every call, so the *most recent* code is recorded, while
  net/http sends only the first one to the client. `ServeCaptures` and
  `TraceMiddleware` state this.
- The three maps `counters`, `histograms` and `gauges` are independent, so
  one name can be a counter and a gauge at once.
- Nothing locks the maps or the gauge read-modify-write in `SetGauge`. The
  model is sequential (see below).
- `lastKnownValues` is keyed by the gauge name alone, not by name and
  attribute set (observability.go:252, 257). A `SetGauge` on one attribute
  set therefore adds the difference from the last value set on *any*
  attribute set of that gauge. The per-name laws below are exact; a
  per-attribute-set reading of "the gauge's value" is not what the code does.

## Model

| member | source | states |
|---|---|---|
| Names.SanitizePath | internal/observability/observability.go:204-212 | the result has the path's length; at every position an ASCII letter or digit is kept and any other character becomes `_` |
| Names.SanitizeAlphabet | internal/observability/observability.go:204-212 | a sanitized path uses only the metric-name alphabet `[A-Za-z0-9_]` |
| Names.SanitizeFixedPoint | internal/observability/observability.go:204-212 | a string is left unchanged by sanitizing if and only if it is already in the metric-name alphabet |
| Names.SanitizeIdempotent | internal/observability/observability.go:204-212 | sanitizing twice equals sanitizing once |
| Names.SanitizeCollides | internal/observability/observability.go:204-212 | two paths sanitize alike if and only if they have the same length, the same letters and digits in the same places, and other characters in the same places |
| Names.ToLower | internal/observability/observability.go:326 | lowering keeps the length, lowers each ASCII capital to its own lower-case letter (code point + 32) and leaves every other character alone |
| Names.ToLowerIdempotent | internal/observability/observability.go:326 | a lowered method has no ASCII capital left, so lowering again changes nothing |
| Names.RouteCounterNameSharing | internal/observability/observability.go:325-327 | for one method, two paths share a per-route counter (`Names.RouteCounterName`, the `Sprintf` at :326) if and only if they sanitize to the same fragment |
| Names.RouteCounterNameNotTotal | internal/observability/observability.go:323-327 | no method and path give a per-route counter named `http_requests_total`, so the two increments of a request never hit one counter |
| Names.RouteCounterNameAlphabet | internal/observability/observability.go:325-327 | with a method of ASCII letters and digits, the per-route counter name is in the metric-name alphabet |
| Registry.GetOrCreate | internal/observability/observability.go:172-186 | an existing name returns its stored instrument and changes nothing; a new name gets the meter's answer; on error no map changes; on success exactly that key is bound to the returned instrument; the other kinds' maps are untouched |
| Registry.CreateCounter | internal/observability/observability.go:172-186 | only the counter map can change, and every other counter keeps its instrument; an existing name returns its counter and changes nothing; a new name gets the meter's answer, stored under `name` on success; an error leaves everything unchanged |
| Registry.CreateHistogram | internal/observability/observability.go:188-202 | only the histogram map can change, and every other histogram keeps its instrument; an existing name returns its histogram and changes nothing; a new name gets the meter's answer, stored under `name` on success; an error leaves everything unchanged |
| Registry.CreateGauge | internal/observability/observability.go:231-245 | only the gauge map can change, and every other gauge keeps its instrument; an existing name returns its gauge and changes nothing; a new name gets the meter's answer, stored under `name` on success; an error leaves everything unchanged |
| Registry.CreateDynamicCounter | internal/observability/observability.go:145-151 | its extra existence check is redundant: it always gives the same result as `CreateCounter` |
| Registry.GetOrCreateExtends | internal/observability/observability.go:172-186 | no creation call removes or rebinds an entry in any of the three maps |
| Registry.CreateTwiceSameInstrument | internal/observability/observability.go:172-186 | after a successful creation, asking again for the same name and kind returns the same instrument and changes nothing, whatever the meter, description or unit |
| Setup.CreateOfKind | internal/observability/observability.go:127-136 | the `switch` dispatches each known type tag to get-or-create on that kind's map |
| Setup.CreateAll | internal/observability/observability.go:125-142 | existing entries survive; no name outside the table is added to a kind's map; on success every row is declared in its kind's map, and the maps grew by exactly the rows' names |
| Setup.CreateAllStopsAtFirstError | internal/observability/observability.go:125-142 | a failure happens at some row: all earlier rows succeeded, the error is that row's unknown tag or `failed to create <name>` wrapping the meter's own error for that row (:137-138), and no later row is attempted |
| Setup.CreateAllSucceeds | internal/observability/observability.go:125-142 | when the meter accepts every row (known tag and successful factory call), the result is `nil` |
| Setup.CreateAllFresh | internal/observability/observability.go:125-142 | over new, distinct names: `nil` if and only if the meter accepts every row, and then each name is bound to the meter's instrument |
| Setup.BuiltInsDistinct | internal/observability/observability.go:115-122 | the eight built-in declarations have distinct names |
| Setup.BuiltInCatalogue | internal/observability/observability.go:115-122 | the catalogue declares the counters `gc_runs_total` and `http_requests_total`, the histogram `http_request_duration_seconds`, and five gauges |
| Setup.CreateMetricsSucceedsIff | internal/observability/observability.go:108-143 | from empty maps, `createMetrics` (`Setup.CreateMetrics`, :108-143) returns `nil` if and only if all eight creations succeed |
| Setup.CreateMetricsCatalogue | internal/observability/observability.go:108-143 | after a successful `createMetrics` from empty maps, they hold exactly two counters, one histogram and five gauges |
| Setup.CreateMetricsBindings | internal/observability/observability.go:108-143 | after a successful `createMetrics` from empty maps, every built-in name is bound to the instrument the meter made for it |
| Recording.IncrementCounter | internal/observability/observability.go:214-221 | the increment happens if and only if the counter exists or the meter creates it with description `Dynamic counter for <name>` and an empty unit; it goes to the counter then stored under the name, which for a new name is the meter's instrument; a failed creation only logs and changes nothing; gauges, histograms and gauge values are untouched |
| Recording.RecordHistogram | internal/observability/observability.go:223-229 | never changes any state; records on the stored histogram exactly when the name was declared, otherwise logs that it is missing |
| Recording.SetGauge | internal/observability/observability.go:247-258 | on a declared gauge, one delta is added that closes the gap from the last known value (`Recording.GaugeValue`, `getGaugeValue` at :256-258: 0 when absent) to the new value, which becomes the name's last known value (one per name, shared by all attribute sets); an undeclared name changes nothing and emits nothing; no other gauge's value moves |
| Recording.Run | internal/observability/observability.go:214-258 | a sequence of recording calls never touches the histogram or gauge maps and never removes or rebinds a counter |
| RecordingLaws.GaugeDeltasTelescope | internal/observability/observability.go:247-258 | over any sequence of calls, the deltas added to a gauge name, over all its attribute sets, sum to the change of its last known value |
| RecordingLaws.GaugeValueIsLastSet | internal/observability/observability.go:247-258 | for a declared gauge, the last known value after a sequence of calls is the value of the last `SetGauge` on it |
| RecordingLaws.GaugeConverges | internal/observability/observability.go:247-258 | for a declared gauge with no remembered value, the deltas added sum to the last value set, whatever the values in between |
| RecordingLaws.UndeclaredGaugeUntouched | internal/observability/observability.go:247-254 | an undeclared gauge gets no delta and its remembered value does not change |
| RecordingLaws.IncrementsAddUp | internal/observability/observability.go:214-221 | on a counter that exists or that the meter creates on first use, no increment is lost: the amounts added sum to the amounts requested |
| Sampler.GcTick | internal/observability/observability.go:280-284 | after the step `lastNumGC` equals the observed `NumGC`, even though the code assigns it only on a positive difference; an increment is emitted if and only if `NumGC` changed; the increment is positive and is the difference modulo 2^32 |
| Sampler.GcRunsTelescope | internal/observability/observability.go:265-284 | over any sequence of ticks, the starting `lastNumGC` plus the emitted increments is the last observed `NumGC` modulo 2^32 |
| Sampler.GcRunsExact | internal/observability/observability.go:265-284 | when `NumGC` never wraps around, the increments sum to exactly the growth of `NumGC` |
| Sampler.Tick | internal/observability/observability.go:271-284 | a tick leaves `lastNumGC` at the observed `NumGC` and creates no gauge or histogram |
| Sampler.Ticks | internal/observability/observability.go:267-286 | after a run of ticks, `lastNumGC` is the latest observed `NumGC` |
| Sampler.TicksAreRun | internal/observability/observability.go:267-286 | consecutive ticks emit exactly what their recording calls emit when run in one sequence |
| Sampler.SamplerGaugesTrackLastSample | internal/observability/observability.go:274-278 | for each of the five sampled gauges, declared and never set before, the deltas added over the ticks sum to its reading in the latest sample |
| Sampler.SamplerGcCounterTotal | internal/observability/observability.go:280-284 | with `gc_runs_total` declared, the amounts added to it over the ticks are exactly the GC-delta steps' increments; with `GcRunsTelescope`, the starting `lastNumGC` plus their sum is the latest `NumGC` modulo 2^32 for a non-empty run (the sum alone from the code's initial 0 at :265) |
| Sampler.SamplerGcCounterExact | internal/observability/observability.go:280-284 | with `gc_runs_total` declared and no wrap-around, the starting `lastNumGC` plus what is added to `gc_runs_total` is the latest `NumGC` |
| Middleware.ServeCaptures | internal/observability/observability.go:331-339 | every `WriteHeader` call (`Middleware.WriteHeader`, :336-339) is forwarded unchanged and in order; the captured status is that of the most recent call, or the starting one when there is none |
| Middleware.TraceMiddleware | internal/observability/observability.go:289-329 | the wrapped writer sees exactly the handler's calls; the recorded status is 200 without `WriteHeader`, otherwise the most recent code; gauges, histograms and gauge values are unchanged, and existing counters keep their instruments |
| Middleware.MiddlewareEmitsThree | internal/observability/observability.go:313-327 | each request whose handler returns emits exactly three events in order: the duration record or its warning, the `http_requests_total` increment or its warning, the per-route increment or its warning; only those two counters can be created |
| Middleware.MiddlewareEmissions | internal/observability/observability.go:313-327 | with the instruments available, a request emits exactly one duration record labelled {method, path, status}, one +1 on `http_requests_total` with the same labels, and one +1 on the per-route counter labelled with the status alone |
| DisabledMode.IncrementCounterAsWritten | internal/observability/observability.go:214-221 | with the nil `meter` of disabled mode, `IncrementCounter` panics if and only if the counter is not yet in the map; with a live meter it records what the enabled mode records |
| DisabledMode.IncrementCounterGuarded | internal/observability/observability.go:153-158 | with a nil guard like `StartSpan`'s, disabled mode never changes the state and records nothing on a missing counter; enabled mode is unchanged, and wherever the code as written returns the guarded call agrees with it |

## Left out

- Exporter, provider, resource and sampler construction in `InitTelemetry`, and the 5-second shutdown: these are calls into the OpenTelemetry SDK and network I/O. The meter is the abstract `Meter` parameter instead.
- Disabled mode beyond `IncrementCounter`: `meter` stays a nil `metric.Meter` interface (observability.go:28, 38-42), so any creation call on it would be a nil-interface panic. Only `IncrementCounter` reaches one on its own (see Findings); `RecordHistogram` and `SetGauge` find empty maps and do not call the meter. The rest of the model is enabled mode.
- One meter per sequence: `Run`, `Ticks`, `CreateAll` and `TraceMiddleware` use one deterministic `Meter` function for the whole sequence, so a creation that fails and later succeeds for the same name is not expressible. No proved property depends on this.
- The span facade (`StartSpan`, `AddEvent`, `SetAttributes`) and the span attributes set by the middleware: thin wrappers over the trace library.
- The sampler's goroutine, ticker and context loop, and `runtime.ReadMemStats`: concurrency and runtime I/O. Each tick is a pure function of an observed `Sample`.
- Concurrent access to the unsynchronised package-level maps: the registry is modelled as sequential state threaded through pure functions.
- Recording.SetGauge: the remembered value is per name only, so with several attribute sets the value an attribute set "reads" is not modelled separately (the code has none either).
- Recording.SetGauge: float64 rounding is not modelled; gauge values and histogram values are exact `real`s, and the conversion of `uint64` statistics to `float64` is exact.
- Recording.IncrementCounter: amounts are unbounded integers; the `int64` range is not modelled (the values used, 1 and a `uint32` difference, fit).
- Middleware.TraceMiddleware: a handler that panics (including through net/http's `WriteHeader` on a code outside 100-999, forwarded at :338) unwinds past the metric calls at :311-327; only the deferred `span.End()` runs, so that request records no duration and increments nothing. The model's handler always returns, so this exit is not modelled.
- Middleware.TraceMiddleware: elapsed wall-clock time is an opaque `duration` argument. The handler is represented only by its `WriteHeader` calls, not by its body writes or its own telemetry calls.
- Names.ToLower: only ASCII capitals are lowered; Unicode case mapping and invalid UTF-8 handling are not modelled. Strings are sequences of characters.
- The wrapped `http.ResponseWriter` is not modelled beyond recording the status codes it receives.
- `cmd/api/config.go`, `cmd/api/main.go`, `cmd/api/healthcheck.go`, `internal/logger/logger.go` and `internal/server/server.go`: configuration, process wiring, logger setup, HTTP server setup and a JSON handler, with no logic of their own to verify.

## Findings

| source | as written | input that shows it | evidently intended | confidence | as-written member | corrected member |
|---|---|---|---|---|---|---|
| internal/observability/observability.go:176, 214-221 | with telemetry disabled, `meter` is a nil interface and `IncrementCounter` on a name not in `counters` calls `meter.Int64Counter` on it, which panics | disabled mode, then any request through `TraceMiddleware`: the increment of `http_requests_total` (:323) | skip the increment when there is no meter, as `StartSpan` does for a nil `tracer` (:153-158) | medium, not executed; whether the middleware is installed in disabled mode is outside this model | DisabledMode.IncrementCounterAsWritten (shown by DisabledMode.DisabledRequestPanics) | DisabledMode.IncrementCounterGuarded (with DisabledMode.DisabledRequestGuarded) |
