/** The span construction of `process_queue`: one decoded access-log entry
    becomes a one-element array holding a Zipkin v1 span document, the body
    of a POST to `/api/v1/spans`. */
module Translation {
  import opened Wrappers
  import opened Json

  const ServiceName: string := "edge-router"
  const MicrosPerSecond: int := 1_000_000
  /** The factor applied to `request_time` (seconds). It yields milliseconds,
      although the span field is read as microseconds. */
  const DurationScale: real := 1000.0
  /** Keys of the binary annotations, in the order they are written. */
  const TagKeys: seq<string> := ["request", "status", "request_method", "remote_addr"]

  datatype Endpoint = Endpoint(serviceName: string)
  datatype Annotation = Annotation(timestamp: int, value: string, endpoint: Endpoint)
  datatype BinaryAnnotation = BinaryAnnotation(key: string, value: Json)
  datatype Span = Span(
    traceId: Json,
    id: Json,
    name: string,
    duration: int,
    timestamp: int,
    parentId: Json,
    annotations: seq<Annotation>,
    binaryAnnotations: seq<BinaryAnnotation>)

  /** The request body: a JSON array of spans. */
  type Message = seq<Span>

  /** The two library conversions the translation relies on, taken as given:
      Ruby's lenient `String#to_f`, and `Time.parse(s).to_i` (epoch seconds,
      or `None` when the parser raises). */
  datatype Library = Library(stringToF: string -> real, parseTime: string -> Option<int>)

  /** Why a translation raised. Each of these escapes the consumer thread,
      which aborts the whole logging process. */
  datatype Fault = EntryNotIndexable | RequestTimeHasNoToF | TimeNotParseable

  /** `s.include?(sub)`. */
  predicate Contains(s: string, sub: string) {
    if |s| < |sub| then false else s[..|sub|] == sub || Contains(s[1..], sub)
  }

  /** `sub` occurs in `s` at offset `i`. */
  predicate OccursAt(s: string, sub: string, i: int) {
    0 <= i <= |s| - |sub| && s[i..i + |sub|] == sub
  }

  /** A slice of `s[1..]` is the slice of `s` one place further on. */
  lemma ShiftSlice(s: string, i: nat, n: nat)
    requires i + n < |s|
    ensures s[1..][i..i + n] == s[i + 1..i + 1 + n]
  {
  }

  /** `Contains` finds `sub` exactly when it occurs at some offset of `s`. */
  lemma {:induction false} ContainsSubstring(s: string, sub: string)
    ensures Contains(s, sub) <==> exists i :: OccursAt(s, sub, i)
  {
    if |s| >= |sub| {
      if s[..|sub|] == sub {
        assert OccursAt(s, sub, 0);
      } else {
        ContainsSubstring(s[1..], sub);
        if Contains(s[1..], sub) {
          var i :| OccursAt(s[1..], sub, i);
          ShiftSlice(s, i, |sub|);
          assert OccursAt(s, sub, i + 1);
        } else {
          forall i | 0 <= i
            ensures !OccursAt(s, sub, i)
          {
            if i == 0 {
              assert s[..|sub|] == s[0..|sub|];
            } else if i + |sub| <= |s| {
              ShiftSlice(s, i - 1, |sub|);
              assert !OccursAt(s[1..], sub, i - 1);
            }
          }
        }
      }
    }
  }

  /** `entry[key]` for the values the decoder can return: a Hash gives the
      value or nil, `String#[](str)` gives `str` when it occurs in the string
      and nil otherwise, and every other receiver raises. */
  function Index(entry: Json, key: string): (r: Option<Json>)
    ensures r.None? <==> !(entry.JObject? || entry.JString?)
    ensures entry.JObject? && key in entry.fields ==> r == Some(entry.fields[key])
    ensures entry.JObject? && key !in entry.fields ==> r == Some(JNull)
    ensures entry.JString? ==> r == Some(JString(key)) || r == Some(JNull)
    ensures entry.JString? ==> (r == Some(JString(key)) <==> Contains(entry.s, key))
  {
    match entry
    case JObject(fields) => Some(if key in fields then fields[key] else JNull)
    case JString(s) => Some(if Contains(s, key) then JString(key) else JNull)
    case _ => None
  }

  /** `v.to_f`: nil is 0.0, numbers are themselves, strings go through the
      library; booleans, arrays and hashes have no `to_f` and raise. */
  function ToF(v: Json, lib: Library): (r: Option<real>)
    ensures r.None? <==> v.JBool? || v.JArray? || v.JObject?
    ensures v.JNull? ==> r == Some(0.0)
    ensures v.JNumber? ==> r == Some(v.n)
    ensures v.JString? ==> r == Some(lib.stringToF(v.s))
  {
    match v
    case JNull => Some(0.0)
    case JNumber(n) => Some(n)
    case JString(s) => Some(lib.stringToF(s))
    case _ => None
  }

  /** `Time.parse(v).to_i`: only a string can be parsed. */
  function EpochSeconds(v: Json, lib: Library): (r: Option<int>)
    ensures !v.JString? ==> r.None?
    ensures v.JString? ==> r == lib.parseTime(v.s)
  {
    if v.JString? then lib.parseTime(v.s) else None
  }

  /** `Float#to_i`: truncation toward zero. */
  function Truncate(x: real): (n: int)
    ensures 0.0 <= x ==> 0 <= n && n as real <= x < n as real + 1.0
    ensures x < 0.0 ==> n <= 0 && n as real - 1.0 < x <= n as real
  {
    if 0.0 <= x then x.Floor else -((-x).Floor)
  }

  /** Whole epoch seconds to microseconds; the seconds can be read back. */
  function Timestamp(seconds: int): (t: int)
    ensures t % MicrosPerSecond == 0 && t / MicrosPerSecond == seconds
  {
    seconds * MicrosPerSecond
  }

  /** The request time in seconds, scaled by 1000 and truncated. */
  function Duration(requestSeconds: real): (d: int)
    ensures 0.0 <= requestSeconds ==> 0 <= d && d as real <= requestSeconds * 1000.0 < d as real + 1.0
    ensures requestSeconds < 0.0 ==> d <= 0 && d as real - 1.0 < requestSeconds * 1000.0 <= d as real
  {
    Truncate(requestSeconds * DurationScale)
  }

  /** The shape every span of this system has: it is its own root (`id` is
      the trace id, no parent), it is named after the edge router, its
      timestamp is a whole second, it carries a client-send annotation at the
      timestamp and a client-receive annotation `duration` later, and its
      four binary annotations have the fixed keys in the fixed order. */
  predicate EdgeRouterSpan(s: Span) {
    && s.id == s.traceId
    && s.name == ServiceName
    && s.parentId == JNull
    && s.timestamp % MicrosPerSecond == 0
    && s.annotations == [
         Annotation(s.timestamp, "cs", Endpoint(ServiceName)),
         Annotation(s.timestamp + s.duration, "cr", Endpoint(ServiceName))]
    && |s.binaryAnnotations| == |TagKeys|
    && forall i :: 0 <= i < |TagKeys| ==> s.binaryAnnotations[i].key == TagKeys[i]
  }

  /** The values of the binary annotations, in order. */
  function Tags(s: Span): seq<Json> {
    seq(|s.binaryAnnotations|, i requires 0 <= i < |s.binaryAnnotations| => s.binaryAnnotations[i].value)
  }

  /** The message built for one queue entry (the computation of `duration`,
      `timestamp` and `message` in `process_queue`). */
  function Translate(entry: Json, lib: Library): (r: Result<Message, Fault>)
    ensures r.Success? <==>
              Index(entry, "request_time").Some?
              && ToF(Index(entry, "request_time").value, lib).Some?
              && EpochSeconds(Index(entry, "time").value, lib).Some?
    ensures r == Failure(EntryNotIndexable) <==> !(entry.JObject? || entry.JString?)
    ensures r == Failure(RequestTimeHasNoToF) <==>
              Index(entry, "request_time").Some? && ToF(Index(entry, "request_time").value, lib).None?
    ensures r == Failure(TimeNotParseable) <==>
              && Index(entry, "request_time").Some?
              && ToF(Index(entry, "request_time").value, lib).Some?
              && EpochSeconds(Index(entry, "time").value, lib).None?
    ensures r.Success? ==> |r.value| == 1 && EdgeRouterSpan(r.value[0])
    ensures r.Success? ==>
              && r.value[0].traceId == Index(entry, "trace_id").value
              && Tags(r.value[0]) == seq(|TagKeys|, i requires 0 <= i < |TagKeys| => Index(entry, TagKeys[i]).value)
    ensures r.Success? ==>
              && r.value[0].timestamp / MicrosPerSecond == EpochSeconds(Index(entry, "time").value, lib).value
              && r.value[0].duration == Duration(ToF(Index(entry, "request_time").value, lib).value)
  {
    match Index(entry, "request_time")
    case None => Failure(EntryNotIndexable)
    case Some(requestTime) =>
      match ToF(requestTime, lib)
      case None => Failure(RequestTimeHasNoToF)
      case Some(seconds) =>
        var duration := Duration(seconds);
        match EpochSeconds(Index(entry, "time").value, lib)
        case None => Failure(TimeNotParseable)
        case Some(epoch) =>
          var timestamp := Timestamp(epoch);
          var traceId := Index(entry, "trace_id").value;
          var span := Span(
            traceId,
            traceId,
            ServiceName,
            duration,
            timestamp,
            JNull,
            [ Annotation(timestamp, "cs", Endpoint(ServiceName)),
              Annotation(timestamp + duration, "cr", Endpoint(ServiceName)) ],
            [ BinaryAnnotation("request", Index(entry, "request").value),
              BinaryAnnotation("status", Index(entry, "status").value),
              BinaryAnnotation("request_method", Index(entry, "request_method").value),
              BinaryAnnotation("remote_addr", Index(entry, "remote_addr").value) ]);
          assert Tags(span) == seq(|TagKeys|, i requires 0 <= i < |TagKeys| => Index(entry, TagKeys[i]).value);
          Success([span])
  }

  /** With a non-negative request time, the client-receive annotation of
      the span is never earlier than its client-send annotation. */
  lemma ReceiveAfterSend(entry: Json, lib: Library)
    requires Translate(entry, lib).Success?
    requires 0.0 <= ToF(Index(entry, "request_time").value, lib).value
    ensures var s := Translate(entry, lib).value[0];
            s.annotations[0].value == "cs" && s.annotations[1].value == "cr" &&
            s.annotations[0].timestamp <= s.annotations[1].timestamp
  {
  }

  /** `to_f` raises only on a `request_time` that is a boolean, an array or
      a hash: a missing or `null` value and any text convert. */
  lemma RequestTimeFaultExactly(entry: Json, lib: Library)
    ensures Translate(entry, lib) == Failure(RequestTimeHasNoToF) <==>
              && entry.JObject? && "request_time" in entry.fields
              && var v := entry.fields["request_time"]; v.JBool? || v.JArray? || v.JObject?
  {
  }

  /** A record without `request_time`, or with a `null` one, is shipped with
      duration 0. */
  lemma AbsentRequestTimeIsZero(entry: Json, lib: Library)
    requires entry.JObject? && ("request_time" !in entry.fields || entry.fields["request_time"] == JNull)
    requires Translate(entry, lib).Success?
    ensures Translate(entry, lib).value[0].duration == 0
  {
  }

  /** An access-log line of 0.125 s at 2024-01-01T00:00:00Z becomes a
      125-unit span at 1704067200000000. */
  lemma SampleAccessLine(lib: Library)
    requires lib.stringToF("0.125") == 0.125
    requires lib.parseTime("2024-01-01T00:00:00Z") == Some(1704067200)
    ensures
      var entry := JObject(map[
        "trace_id" := JString("abc"), "request_time" := JString("0.125"),
        "time" := JString("2024-01-01T00:00:00Z"), "request" := JString("GET /"),
        "status" := JString("200"), "request_method" := JString("GET"),
        "remote_addr" := JString("1.2.3.4")]);
      Translate(entry, lib) == Success([Span(
        JString("abc"), JString("abc"), "edge-router", 125, 1704067200000000, JNull,
        [ Annotation(1704067200000000, "cs", Endpoint("edge-router")),
          Annotation(1704067200000125, "cr", Endpoint("edge-router")) ],
        [ BinaryAnnotation("request", JString("GET /")),
          BinaryAnnotation("status", JString("200")),
          BinaryAnnotation("request_method", JString("GET")),
          BinaryAnnotation("remote_addr", JString("1.2.3.4")) ])])
  {
    assert 0.125 * DurationScale == 125.0;
    assert Duration(0.125) == 125;
  }
}
