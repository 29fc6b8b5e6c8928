/**
 Metric-name construction: `sanitizePath`, the ASCII part of `strings.ToLower`
 and the name of the per-route request counter built by the tracing middleware.
 */
module Names {

  /** The characters `sanitizePath` keeps: ASCII letters and digits. */
  predicate IsAlphaNum(c: char) {
    ('a' <= c <= 'z') || ('A' <= c <= 'Z') || ('0' <= c <= '9')
  }

  /** The character every other character is replaced by. */
  const Filler: char := '_'

  /** True iff every character of `s` may appear in a metric name: `[A-Za-z0-9_]`. */
  predicate IsMetricFragment(s: string) {
    forall i :: 0 <= i < |s| ==> IsAlphaNum(s[i]) || s[i] == Filler
  }

  /** The rune mapping applied by `sanitizePath`. */
  function SanitizeRune(c: char): char {
    if IsAlphaNum(c) then c else Filler
  }

  /** `sanitizePath`: `strings.Map` of `SanitizeRune` over the path, one rune at a time. */
  function SanitizePath(path: string): (r: string)
    ensures |r| == |path|
    ensures forall i :: 0 <= i < |path| && IsAlphaNum(path[i]) ==> r[i] == path[i]
    ensures forall i :: 0 <= i < |path| && !IsAlphaNum(path[i]) ==> r[i] == Filler
  {
    if |path| == 0 then [] else [SanitizeRune(path[0])] + SanitizePath(path[1..])
  }

  /** The output of `SanitizePath` uses only the metric-name alphabet. */
  lemma SanitizeAlphabet(path: string)
    ensures IsMetricFragment(SanitizePath(path))
  {
  }

  /** A string is left unchanged by `SanitizePath` exactly when it is already a metric fragment. */
  lemma SanitizeFixedPoint(s: string)
    ensures SanitizePath(s) == s <==> IsMetricFragment(s)
  {
    if IsMetricFragment(s) {
      assert forall i :: 0 <= i < |s| ==> SanitizePath(s)[i] == s[i];
    }
  }

  /** Sanitizing twice is the same as sanitizing once. */
  lemma SanitizeIdempotent(path: string)
    ensures SanitizePath(SanitizePath(path)) == SanitizePath(path)
  {
    SanitizeAlphabet(path);
    SanitizeFixedPoint(SanitizePath(path));
  }

  /** Two paths that agree on every letter and digit and on where the other characters sit. */
  predicate SameShape(p: string, q: string) {
    && |p| == |q|
    && forall i :: 0 <= i < |p| ==>
         (IsAlphaNum(p[i]) <==> IsAlphaNum(q[i])) && (IsAlphaNum(p[i]) ==> p[i] == q[i])
  }

  /**
   Two paths sanitize to the same fragment exactly when they have the same
   shape: e.g. "/a-b" and "/a/b" share one fragment, "/a/b" and "/a/c" do not.
   */
  lemma SanitizeCollides(p: string, q: string)
    ensures SanitizePath(p) == SanitizePath(q) <==> SameShape(p, q)
  {
    if SanitizePath(p) == SanitizePath(q) {
      SameFragmentSameShape(p, q);
    }
    if SameShape(p, q) {
      SameShapeSameFragment(p, q);
    }
  }

  lemma SameFragmentSameShape(p: string, q: string)
    requires SanitizePath(p) == SanitizePath(q)
    ensures SameShape(p, q)
  {
    forall i | 0 <= i < |p|
      ensures (IsAlphaNum(p[i]) <==> IsAlphaNum(q[i])) && (IsAlphaNum(p[i]) ==> p[i] == q[i])
    {
      SanitizeAt(p, i);
      SanitizeAt(q, i);
    }
  }

  lemma SameShapeSameFragment(p: string, q: string)
    requires SameShape(p, q)
    ensures SanitizePath(p) == SanitizePath(q)
  {
    forall i | 0 <= i < |p| ensures SanitizePath(p)[i] == SanitizePath(q)[i] {
      SanitizeAt(p, i);
      SanitizeAt(q, i);
    }
  }

  /** One position of `SanitizePath`, as a single fact. */
  lemma SanitizeAt(p: string, i: int)
    requires 0 <= i < |p|
    ensures SanitizePath(p)[i] == SanitizeRune(p[i])
  {
  }

  /** The ASCII case mapping of `strings.ToLower`. */
  function LowerRune(c: char): char {
    if 'A' <= c <= 'Z' then (c as int + 32) as char else c
  }

  /** `strings.ToLower` restricted to ASCII: one rune at a time, upper-case letters lowered. */
  function ToLower(s: string): (r: string)
    ensures |r| == |s|
    ensures forall i :: 0 <= i < |s| && !('A' <= s[i] <= 'Z') ==> r[i] == s[i]
    ensures forall i :: 0 <= i < |s| && 'A' <= s[i] <= 'Z' ==> 'a' <= r[i] <= 'z' && r[i] as int == s[i] as int + 32
  {
    if |s| == 0 then [] else [LowerRune(s[0])] + ToLower(s[1..])
  }

  /** Lowering leaves no upper-case ASCII letter, so lowering twice is lowering once. */
  lemma ToLowerIdempotent(s: string)
    ensures forall i :: 0 <= i < |s| ==> !('A' <= ToLower(s)[i] <= 'Z')
    ensures ToLower(ToLower(s)) == ToLower(s)
  {
    var l := ToLower(s);
    assert forall i :: 0 <= i < |l| ==> ToLower(l)[i] == l[i];
  }

  /** The prefix shared by every per-route request counter. */
  const RoutePrefix: string := "http_requests_"

  /** The per-route counter name `http_requests_<lower(verb)>_<sanitizePath(path)>`. */
  function RouteCounterName(verb: string, path: string): string {
    RoutePrefix + ToLower(verb) + "_" + SanitizePath(path)
  }

  /**
   For a fixed verb, two paths share a per-route counter exactly when they
   sanitize to the same fragment.
   */
  lemma RouteCounterNameSharing(verb: string, p: string, q: string)
    ensures RouteCounterName(verb, p) == RouteCounterName(verb, q) <==> SanitizePath(p) == SanitizePath(q)
  {
    var head := RoutePrefix + ToLower(verb) + "_";
    if RouteCounterName(verb, p) == RouteCounterName(verb, q) {
      assert SanitizePath(p) == RouteCounterName(verb, p)[|head|..];
      assert SanitizePath(q) == RouteCounterName(verb, q)[|head|..];
    }
  }

  /**
   The name of a per-route counter is never `http_requests_total`: the
   separator after the verb puts a `_` where "total" has none.
   */
  lemma RouteCounterNameNotTotal(verb: string, path: string)
    ensures RouteCounterName(verb, path) != "http_requests_total"
  {
    var n := RouteCounterName(verb, path);
    var k := |RoutePrefix| + |ToLower(verb)|;
    assert n[k] == '_';
    if k < |"http_requests_total"| {
      assert "http_requests_total"[k] in "total";
    }
  }

  /** A verb of ASCII letters and digits gives a per-route name in the metric-name alphabet. */
  lemma RouteCounterNameAlphabet(verb: string, path: string)
    requires forall i :: 0 <= i < |verb| ==> IsAlphaNum(verb[i])
    ensures IsMetricFragment(RouteCounterName(verb, path))
  {
    var l := ToLower(verb);
    assert IsMetricFragment(RoutePrefix);
    assert IsMetricFragment(l);
    SanitizeAlphabet(path);
    var n := RouteCounterName(verb, path);
    forall i | 0 <= i < |n| ensures IsAlphaNum(n[i]) || n[i] == Filler {
      if i < |RoutePrefix| {
        assert n[i] == RoutePrefix[i];
      } else if i < |RoutePrefix| + |l| {
        assert n[i] == l[i - |RoutePrefix|];
      } else if i == |RoutePrefix| + |l| {
        assert n[i] == '_';
      } else {
        assert n[i] == SanitizePath(path)[i - |RoutePrefix| - |l| - 1];
      }
    }
  }
}
