/**
 The request instrumentation of `TraceMiddleware`: the `customResponseWriter`
 that captures the status code, and the metric calls made after the wrapped
 handler returns. The handler is represented by the `WriteHeader` calls it
 makes, in order; spans are not modelled.
 */
module Middleware {
  import opened Registry
  import opened Recording
  import opened Names

  /** `http.StatusOK`, the status recorded when the handler never calls `WriteHeader`. */
  const StatusOK: int := 200

  /**
   `customResponseWriter`: the captured `statusCode`, and the status codes passed
   on to the wrapped `http.ResponseWriter`.
   */
  datatype ResponseWriter = ResponseWriter(statusCode: int, forwarded: seq<int>)

  /** The wrapper as the middleware builds it, before the handler runs. */
  const Unwritten: ResponseWriter := ResponseWriter(StatusOK, [])

  /** `customResponseWriter.WriteHeader`: remember the code, then forward it. */
  function WriteHeader(w: ResponseWriter, statusCode: int): ResponseWriter {
    ResponseWriter(statusCode, w.forwarded + [statusCode])
  }

  /** The handler's `WriteHeader` calls, applied in order. */
  function Serve(w: ResponseWriter, calls: seq<int>): ResponseWriter
    decreases |calls|
  {
    if |calls| == 0 then w else Serve(WriteHeader(w, calls[0]), calls[1..])
  }

  /**
   The wrapper forwards every call unchanged and in order, and holds the code
   of the most recent call (its starting code when there was none).
   */
  lemma {:induction false} ServeCaptures(w: ResponseWriter, calls: seq<int>)
    ensures Serve(w, calls).forwarded == w.forwarded + calls
    ensures Serve(w, calls).statusCode == if |calls| == 0 then w.statusCode else calls[|calls| - 1]
    decreases |calls|
  {
    if |calls| > 0 {
      ServeCaptures(WriteHeader(w, calls[0]), calls[1..]);
      assert w.forwarded + [calls[0]] + calls[1..] == w.forwarded + calls;
    }
  }

  /** The request fields the middleware reads: `r.Method` and `r.URL.Path`. */
  datatype Request = Request(verb: string, path: string)

  /** The telemetry state after the request, the events emitted, and the wrapper as the handler left it. */
  datatype Served = Served(state: Telemetry, events: seq<Event>, writer: ResponseWriter)

  /** The labels `{method, path, status}` of the duration histogram and the request counter. */
  function RequestLabels(req: Request, status: int): seq<Label> {
    [Label("method", Text(req.verb)), Label("path", Text(req.path)), Label("status", Number(status))]
  }

  /** The metric calls made after the handler returns, in order. */
  function RequestCalls(req: Request, status: int, duration: real): seq<Call> {
    [ Record("http_request_duration_seconds", duration, RequestLabels(req, status)),
      Increment("http_requests_total", 1, RequestLabels(req, status)),
      Increment(RouteCounterName(req.verb, req.path), 1, [Label("status", Number(status))]) ]
  }

  /**
   `TraceMiddleware` around a handler that makes the `WriteHeader` calls
   `handler`; `duration` stands for the elapsed time measured around it.
   */
  function TraceMiddleware(t: Telemetry, meter: Meter, req: Request, handler: seq<int>, duration: real): (r: Served)
    // the wrapped writer sees exactly the handler's calls
    ensures r.writer.forwarded == handler
    // the recorded status is 200, or the most recent `WriteHeader` code
    ensures r.writer.statusCode == if |handler| == 0 then StatusOK else handler[|handler| - 1]
    // telemetry is only added to: no gauge, histogram or remembered gauge value changes
    ensures r.state.lastKnown == t.lastKnown
    ensures r.state.registry.histograms == t.registry.histograms
    ensures r.state.registry.gauges == t.registry.gauges
    ensures forall n :: n in t.registry.counters ==>
              n in r.state.registry.counters && r.state.registry.counters[n] == t.registry.counters[n]
  {
    ServeCaptures(Unwritten, handler);
    var w := Serve(Unwritten, handler);
    var run := Run(t, meter, RequestCalls(req, w.statusCode, duration));
    assert run.state.lastKnown == t.lastKnown by {
      RunKeepsLastKnown(t, meter, RequestCalls(req, w.statusCode, duration));
    }
    Served(run.state, run.events, w)
  }

  /** Calls without a `Set` leave the remembered gauge values alone. */
  lemma {:induction false} RunKeepsLastKnown(t: Telemetry, meter: Meter, calls: seq<Call>)
    requires forall i :: 0 <= i < |calls| ==> !calls[i].Set?
    ensures Run(t, meter, calls).state.lastKnown == t.lastKnown
    decreases |calls|
  {
    if |calls| > 0 {
      var first := Apply(t, meter, calls[0]);
      RunKeepsLastKnown(first.state, meter, calls[1..]);
    }
  }

  /** Three calls run one after the other. */
  lemma RunThree(t: Telemetry, meter: Meter, a: Call, b: Call, c: Call)
    ensures var s1 := Apply(t, meter, a);
            var s2 := Apply(s1.state, meter, b);
            var s3 := Apply(s2.state, meter, c);
            Run(t, meter, [a, b, c]) == Step(s3.state, s1.events + s2.events + s3.events)
  {
    var s1 := Apply(t, meter, a);
    var s2 := Apply(s1.state, meter, b);
    var s3 := Apply(s2.state, meter, c);
    assert [a, b, c][1..] == [b, c] && [b, c][1..] == [c] && [c][1..] == [];
    assert Run(s2.state, meter, [c]) == Step(s3.state, s3.events + []);
    assert s3.events + [] == s3.events;
    assert s1.events + (s2.events + s3.events) == s1.events + s2.events + s3.events;
  }

  /**
   Every request whose handler returns emits exactly three events, in order: the duration record (or
   the missing-histogram warning), the `http_requests_total` increment, and the
   per-route increment (each, or its creation-failure warning). The only
   counters that can appear are those two.
   */
  lemma MiddlewareEmitsThree(t: Telemetry, meter: Meter, req: Request, handler: seq<int>, duration: real)
    ensures var r := TraceMiddleware(t, meter, req, handler, duration);
            && |r.events| == 3
            && (r.events[0].HistogramRecord? || r.events[0] == HistogramMissing("http_request_duration_seconds"))
            && (r.events[1].CounterAdd? || r.events[1].CounterCreateFailed?) && r.events[1].name == "http_requests_total"
            && (r.events[2].CounterAdd? || r.events[2].CounterCreateFailed?)
            && r.events[2].name == RouteCounterName(req.verb, req.path)
            && r.state.registry.counters.Keys <=
                 t.registry.counters.Keys + {"http_requests_total", RouteCounterName(req.verb, req.path)}
  {
    var w := Serve(Unwritten, handler);
    var calls := RequestCalls(req, w.statusCode, duration);
    RunThree(t, meter, calls[0], calls[1], calls[2]);
    assert calls == [calls[0], calls[1], calls[2]];
  }

  /**
   With the duration histogram and the request counter declared, and the
   per-route counter existing or creatable, a request emits exactly: one record
   of `duration` on the histogram labelled {method, path, status}, one +1 on
   `http_requests_total` with the same labels, and one +1 on the per-route
   counter labelled with the status alone.
   */
  lemma MiddlewareEmissions(t: Telemetry, meter: Meter, req: Request, handler: seq<int>, duration: real)
    requires "http_request_duration_seconds" in t.registry.histograms
    requires "http_requests_total" in t.registry.counters
    requires RouteCounterName(req.verb, req.path) in t.registry.counters ||
             meter(Counter, RouteCounterName(req.verb, req.path),
                   DynamicDescription(RouteCounterName(req.verb, req.path)), "").Ok?
    ensures var r := TraceMiddleware(t, meter, req, handler, duration);
            var status := r.writer.statusCode;
            var route := RouteCounterName(req.verb, req.path);
            && route in r.state.registry.counters
            && r.events == [
                 HistogramRecord("http_request_duration_seconds", t.registry.histograms["http_request_duration_seconds"],
                                 duration, RequestLabels(req, status)),
                 CounterAdd("http_requests_total", t.registry.counters["http_requests_total"], 1, RequestLabels(req, status)),
                 CounterAdd(route, r.state.registry.counters[route], 1, [Label("status", Number(status))])]
  {
    var w := Serve(Unwritten, handler);
    var route := RouteCounterName(req.verb, req.path);
    var calls := RequestCalls(req, w.statusCode, duration);
    RunThree(t, meter, calls[0], calls[1], calls[2]);
    assert calls == [calls[0], calls[1], calls[2]];
    RouteCounterNameNotTotal(req.verb, req.path);
  }
}
