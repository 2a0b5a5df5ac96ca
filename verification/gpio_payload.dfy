/** The end device's GPIO telemetry serialisers: `gpio_event_build_payload`
    (`gpio_event.c`) and `telemetry_build_gpio_payload[_ex]`
    (`telemetry/telemetry_gpio.c`). Each formats one JSON object with
    `snprintf` from strings and integers. C string arguments are their
    contents, `None` for a NULL pointer; the output buffer is its length
    and the text `snprintf` leaves in it. */
module GpioPayload {
  import opened Wrappers
  import Text
  import Debounce

  function Min(a: int, b: int): int
  {
    if a <= b then a else b
  }

  /** What `snprintf(buf, bufLen, ...)` does with the formatted `text`:
      the buffer keeps as much as fits before the terminator, and the
      untruncated length is returned. */
  datatype Written = Written(buffer: string, len: nat)

  function Snprintf(text: string, bufLen: nat): (w: Written)
    requires bufLen > 0
    ensures w.len == |text|
    ensures w.buffer <= text && |w.buffer| == Min(|text|, bufLen - 1)
    ensures w.buffer == text <==> |text| < bufLen
  {
    Written(text[..Min(|text|, bufLen - 1)], |text|)
  }

  /** The arguments common to all three builders. */
  datatype GpioArgs = GpioArgs(
    deviceId: Option<string>,
    deviceType: Option<string>,
    pinAlias: Option<string>,
    state: int,
    edge: Debounce.Edge,
    uptimeMs: int,
    runId: Option<string>)

  /** The value of the `run_id` field: quoted when non-NULL and non-empty,
      otherwise the JSON literal `null`. */
  function RunIdValue(runId: Option<string>): string
  {
    if runId.Some? && runId.value != [] then "\"" + runId.value + "\"" else "null"
  }

  /** The `run_id` value reads `null` exactly when no run id was given. */
  lemma RunIdNullIffAbsent(runId: Option<string>)
    ensures RunIdValue(runId) == "null" <==> runId.None? || runId.value == []
    ensures runId.Some? && runId.value != [] ==> RunIdValue(runId)[1..|RunIdValue(runId)| - 1] == runId.value
  {
    if runId.Some? && runId.value != [] {
      assert RunIdValue(runId)[0] == '"';
    }
  }

  /** `"time_anomaly":true,` or `"time_anomaly":false,`. */
  function AnomalyField(anomaly: bool): string
  {
    "\"time_anomaly\":" + (if anomaly then "true" else "false") + ","
  }

  /** The guard shared by the builders: a buffer of non-zero length and
      non-NULL pin alias, device id and device type. */
  predicate Accepts(hasBuf: bool, bufLen: nat, a: GpioArgs)
  {
    hasBuf && bufLen > 0 && HasStrings(a)
  }

  predicate HasStrings(a: GpioArgs)
  {
    a.pinAlias.Some? && a.deviceId.Some? && a.deviceType.Some?
  }

  // The format, written as nested suffixes: each function below is the
  // rest of the text from one field on.

  /** From `"uptime_ms"` to the end. */
  function UptimeTail(uptimeMs: int): string
  {
    "\"uptime_ms\":" + (Text.IntToDec(uptimeMs) + ("}" + "}}"))
  }

  /** From `"edge"` to the end. */
  function EdgeTail(edge: Debounce.Edge, uptimeMs: int): string
  {
    "\"edge\":\"" + (Debounce.EdgeName(edge) + ("\"" + ("," + UptimeTail(uptimeMs))))
  }

  /** From `"run_id"` to the end. */
  function RunIdTail(a: GpioArgs): string
    requires HasStrings(a)
  {
    "\"run_id\":" + (RunIdValue(a.runId) + (",\"data\":{\"gpio\":{\"pin\":\"" + (a.pinAlias.value
    + ("\",\"state\":" + (Text.IntToDec(a.state) + ("," + EdgeTail(a.edge, a.uptimeMs)))))))
  }

  /** From the optional `time_anomaly` field to the end. */
  function AnomalyTail(a: GpioArgs, anomaly: Option<bool>): string
    requires HasStrings(a)
  {
    (if anomaly.Some? then AnomalyField(anomaly.value) else "")
    + ("\"event_type\":\"state_change\",\"location\":null," + RunIdTail(a))
  }

  /** From `"timestamp"` to the end. */
  function TimestampTail(a: GpioArgs, anomaly: Option<bool>): string
    requires HasStrings(a)
  {
    "\"timestamp\":" + (Text.IntToDec(a.uptimeMs) + ("," + AnomalyTail(a, anomaly)))
  }

  /** The formatted text, with the `time_anomaly` field when `anomaly` is
      given (the `_ex` format) and without it (`gpio_event_build_payload`). */
  function PayloadText(a: GpioArgs, anomaly: Option<bool>): string
    requires HasStrings(a)
  {
    "{\"schema_version\":\"1.0\",\"device_id\":\"" + (a.deviceId.value + ("\",\"device_type\":\""
    + (a.deviceType.value + ("\"," + TimestampTail(a, anomaly)))))
  }

  /** A builder's return value, and the buffer contents afterwards (`None`
      when it was not written). */
  datatype Built = Built(ret: int, buffer: Option<string>)

  /** The guard, the `snprintf` and the fit check of every builder. */
  function Build(hasBuf: bool, bufLen: nat, a: GpioArgs, anomaly: Option<bool>): (b: Built)
    ensures !Accepts(hasBuf, bufLen, a) ==> b == Built(-1, None)
    ensures Accepts(hasBuf, bufLen, a) ==>
              var t := PayloadText(a, anomaly);
              // -1 exactly when the text did not fit with its terminator
              && (b.ret == -1 <==> |t| >= bufLen)
              && (b.ret != -1 ==> b.ret == |t| && b.buffer == Some(t))
              // whatever fitted is a prefix of the text
              && b.buffer.Some? && b.buffer.value <= t && |b.buffer.value| < bufLen
    ensures b.ret != -1 ==> 0 <= b.ret < bufLen
  {
    if !Accepts(hasBuf, bufLen, a) then Built(-1, None)
    else
      var w := Snprintf(PayloadText(a, anomaly), bufLen);
      if w.len >= bufLen then Built(-1, Some(w.buffer)) else Built(w.len, Some(w.buffer))
  }

  /** `gpio_event_build_payload`: the format without a `time_anomaly`
      field. */
  function GpioEventBuildPayload(hasBuf: bool, bufLen: nat, a: GpioArgs): (b: Built)
    ensures !Accepts(hasBuf, bufLen, a) ==> b == Built(-1, None)
    ensures Accepts(hasBuf, bufLen, a) ==>
              && (b.ret == -1 <==> |PayloadText(a, None)| >= bufLen)
              && (b.ret != -1 ==> b.ret == |PayloadText(a, None)| && b.buffer == Some(PayloadText(a, None)))
  {
    Build(hasBuf, bufLen, a, None)
  }

  /** `telemetry_build_gpio_payload_ex`: the format with the flag. */
  function TelemetryBuildGpioPayloadEx(hasBuf: bool, bufLen: nat, a: GpioArgs, timeAnomaly: bool): (b: Built)
    ensures !Accepts(hasBuf, bufLen, a) ==> b == Built(-1, None)
    ensures Accepts(hasBuf, bufLen, a) ==>
              var t := PayloadText(a, Some(timeAnomaly));
              && (b.ret == -1 <==> |t| >= bufLen)
              && (b.ret != -1 ==> b.ret == |t| && b.buffer == Some(t))
  {
    Build(hasBuf, bufLen, a, Some(timeAnomaly))
  }

  /** `telemetry_build_gpio_payload` forwards with `time_anomaly` false. */
  function TelemetryBuildGpioPayload(hasBuf: bool, bufLen: nat, a: GpioArgs): (b: Built)
    ensures b == TelemetryBuildGpioPayloadEx(hasBuf, bufLen, a, false)
    ensures Accepts(hasBuf, bufLen, a) && b.ret != -1 ==> b.buffer == Some(PayloadText(a, Some(false)))
  {
    TelemetryBuildGpioPayloadEx(hasBuf, bufLen, a, false)
  }

  // -----------------------------------------------------------------------
  // What the text contains

  /** Each tail is a suffix of the one before it, so of the whole text. */
  lemma TailsAreSuffixes(a: GpioArgs, anomaly: Option<bool>)
    requires HasStrings(a)
    ensures var s := PayloadText(a, anomaly);
            && Text.EndsWith(s, TimestampTail(a, anomaly)) && Text.EndsWith(s, AnomalyTail(a, anomaly))
            && Text.EndsWith(s, RunIdTail(a)) && Text.EndsWith(s, EdgeTail(a.edge, a.uptimeMs))
            && Text.EndsWith(s, UptimeTail(a.uptimeMs))
  {
    var s := PayloadText(a, anomaly);
    var ts := TimestampTail(a, anomaly);
    var at := AnomalyTail(a, anomaly);
    var rt := RunIdTail(a);
    var et := EdgeTail(a.edge, a.uptimeMs);
    var ut := UptimeTail(a.uptimeMs);
    Text.EndsWithSelf(ts);
    Text.EndsWithAppend("\",", ts, ts);
    Text.EndsWithAppend(a.deviceType.value, "\"," + ts, ts);
    Text.EndsWithAppend("\",\"device_type\":\"", a.deviceType.value + ("\"," + ts), ts);
    Text.EndsWithAppend(a.deviceId.value, "\",\"device_type\":\"" + (a.deviceType.value + ("\"," + ts)), ts);
    Text.EndsWithAppend("{\"schema_version\":\"1.0\",\"device_id\":\"",
                        a.deviceId.value + ("\",\"device_type\":\"" + (a.deviceType.value + ("\"," + ts))), ts);
    var d := Text.IntToDec(a.uptimeMs);
    Text.EndsWithSelf(at);
    Text.EndsWithAppend(",", at, at);
    Text.EndsWithAppend(d, "," + at, at);
    Text.EndsWithAppend("\"timestamp\":", d + ("," + at), at);
    Text.EndsWithTrans(s, ts, at);
    var x := if anomaly.Some? then AnomalyField(anomaly.value) else "";
    var ev := "\"event_type\":\"state_change\",\"location\":null,";
    Text.EndsWithSelf(rt);
    Text.EndsWithAppend(ev, rt, rt);
    Text.EndsWithAppend(x, ev + rt, rt);
    Text.EndsWithTrans(s, at, rt);
    var v := RunIdValue(a.runId);
    var pin := a.pinAlias.value;
    var st := Text.IntToDec(a.state);
    Text.EndsWithSelf(et);
    Text.EndsWithAppend(",", et, et);
    Text.EndsWithAppend(st, "," + et, et);
    Text.EndsWithAppend("\",\"state\":", st + ("," + et), et);
    Text.EndsWithAppend(pin, "\",\"state\":" + (st + ("," + et)), et);
    Text.EndsWithAppend(",\"data\":{\"gpio\":{\"pin\":\"", pin + ("\",\"state\":" + (st + ("," + et))), et);
    Text.EndsWithAppend(v, ",\"data\":{\"gpio\":{\"pin\":\"" + (pin + ("\",\"state\":" + (st + ("," + et)))), et);
    Text.EndsWithAppend("\"run_id\":", v + (",\"data\":{\"gpio\":{\"pin\":\"" + (pin + ("\",\"state\":" + (st + ("," + et))))), et);
    Text.EndsWithTrans(s, rt, et);
    var name := Debounce.EdgeName(a.edge);
    Text.EndsWithSelf(ut);
    Text.EndsWithAppend(",", ut, ut);
    Text.EndsWithAppend("\"", "," + ut, ut);
    Text.EndsWithAppend(name, "\"" + ("," + ut), ut);
    Text.EndsWithAppend("\"edge\":\"", name + ("\"" + ("," + ut)), ut);
    Text.EndsWithTrans(s, et, ut);
  }

  /** The run id is quoted when present, `null` otherwise. */
  lemma RunIdField(a: GpioArgs, anomaly: Option<bool>)
    requires HasStrings(a)
    ensures a.runId.Some? && a.runId.value != [] ==>
              Text.Contains(PayloadText(a, anomaly), "\"run_id\":\"" + a.runId.value + "\"")
    ensures a.runId.None? || a.runId.value == [] ==>
              Text.Contains(PayloadText(a, anomaly), "\"run_id\":null")
  {
    TailsAreSuffixes(a, anomaly);
    var r := RunIdTail(a);
    var t := "\"run_id\":" + RunIdValue(a.runId);
    Text.PrefixOfPair("\"run_id\":", RunIdValue(a.runId), ",\"data\":{\"gpio\":{\"pin\":\"" + (a.pinAlias.value
      + ("\",\"state\":" + (Text.IntToDec(a.state) + ("," + EdgeTail(a.edge, a.uptimeMs))))));
    Text.ContainsInSuffix(PayloadText(a, anomaly), r, t);
    RunIdNeedle(a.runId);
  }

  lemma RunIdNeedle(runId: Option<string>)
    ensures runId.Some? && runId.value != [] ==>
              "\"run_id\":" + RunIdValue(runId) == "\"run_id\":\"" + runId.value + "\""
    ensures runId.None? || runId.value == [] ==> "\"run_id\":" + RunIdValue(runId) == "\"run_id\":null"
  {
  }

  /** The edge is rendered by `gpio_edge_str`. */
  lemma EdgeField(a: GpioArgs, anomaly: Option<bool>)
    requires HasStrings(a)
    ensures Text.Contains(PayloadText(a, anomaly), "\"edge\":\"" + Debounce.EdgeName(a.edge) + "\"")
  {
    TailsAreSuffixes(a, anomaly);
    var r := EdgeTail(a.edge, a.uptimeMs);
    Text.PrefixOfNested("\"edge\":\"", Debounce.EdgeName(a.edge), "\"", "," + UptimeTail(a.uptimeMs));
    Text.ContainsInSuffix(PayloadText(a, anomaly), r, "\"edge\":\"" + Debounce.EdgeName(a.edge) + "\"");
  }

  /** Both `timestamp` and `uptime_ms` carry the uptime. */
  lemma TimestampIsUptime(a: GpioArgs, anomaly: Option<bool>)
    requires HasStrings(a)
    ensures Text.Contains(PayloadText(a, anomaly), "\"timestamp\":" + Text.IntToDec(a.uptimeMs) + ",")
    ensures Text.Contains(PayloadText(a, anomaly), "\"uptime_ms\":" + Text.IntToDec(a.uptimeMs) + "}")
  {
    TailsAreSuffixes(a, anomaly);
    var s := PayloadText(a, anomaly);
    var d := Text.IntToDec(a.uptimeMs);
    Text.PrefixOfNested("\"timestamp\":", d, ",", AnomalyTail(a, anomaly));
    Text.ContainsInSuffix(s, TimestampTail(a, anomaly), "\"timestamp\":" + d + ",");
    Text.PrefixOfNested("\"uptime_ms\":", d, "}", "}}");
    Text.ContainsInSuffix(s, UptimeTail(a.uptimeMs), "\"uptime_ms\":" + d + "}");
  }

  /** The `_ex` format spells `time_anomaly` as a JSON boolean. */
  lemma AnomalyFieldLiteral(a: GpioArgs, anomaly: bool)
    requires HasStrings(a)
    ensures Text.Contains(PayloadText(a, Some(anomaly)),
                          "\"time_anomaly\":" + (if anomaly then "true" else "false") + ",")
  {
    TailsAreSuffixes(a, Some(anomaly));
    Text.ContainsInSuffix(PayloadText(a, Some(anomaly)), AnomalyTail(a, Some(anomaly)), AnomalyField(anomaly));
  }

  /** The length of the text: the 182 characters of the format plus the
      rendered arguments. */
  lemma PayloadLength(a: GpioArgs, anomaly: Option<bool>)
    requires HasStrings(a)
    ensures |PayloadText(a, anomaly)| ==
              182 + |a.deviceId.value| + |a.deviceType.value| + |a.pinAlias.value|
              + 2 * |Text.IntToDec(a.uptimeMs)| + |Text.IntToDec(a.state)|
              + |RunIdValue(a.runId)| + |Debounce.EdgeName(a.edge)|
              + (if anomaly.Some? then |AnomalyField(anomaly.value)| else 0)
  {
  }

  // -----------------------------------------------------------------------
  // The host and ztest cases

  lemma DecimalsUsedBelow()
    ensures Text.IntToDec(1234) == "1234" && Text.IntToDec(4321) == "4321"
    ensures Text.IntToDec(1) == "1" && Text.IntToDec(0) == "0"
  {
    assert Text.NatToDec(1) == "1";
    assert Text.NatToDec(12) == "12";
    assert Text.NatToDec(123) == "123";
    assert Text.NatToDec(4) == "4";
    assert Text.NatToDec(43) == "43";
    assert Text.NatToDec(432) == "432";
  }

  /** The literal texts the host test searches for. */
  lemma HostNeedles()
    ensures "\"edge\":\"" + Debounce.EdgeName(Debounce.Rising) + "\"" == "\"edge\":\"rising\""
    ensures "\"edge\":\"" + Debounce.EdgeName(Debounce.Falling) + "\"" == "\"edge\":\"falling\""
    ensures "\"run_id\":\"" + "abcd1234" + "\"" == "\"run_id\":\"abcd1234\""
    ensures "{\"schema_version\":\"1.0\",\"device_id\":\""[..15] == "{\"schema_versio"
  {
  }

  /** `test_gpio_payloads`, first call: a rising edge with a run id fits a
      256-byte buffer (247 characters). */
  lemma HostPayloadWithRunId(a: GpioArgs)
    requires a == GpioArgs(Some("dev123"), Some("evse"), Some("extinput0"), 1, Debounce.Rising, 1234,
                           Some("abcd1234"))
    ensures var b := TelemetryBuildGpioPayload(true, 256, a);
            && b.ret == 247 && b.buffer == Some(PayloadText(a, Some(false)))
            && Text.Contains(b.buffer.value, "\"edge\":\"rising\"")
            && Text.Contains(b.buffer.value, "\"run_id\":\"abcd1234\"")
  {
    DecimalsUsedBelow();
    PayloadLength(a, Some(false));
    EdgeField(a, Some(false));
    RunIdField(a, Some(false));
    HostNeedles();
  }

  /** Second call: a falling edge without a run id (242 characters). */
  lemma HostPayloadWithoutRunId(a: GpioArgs)
    requires a == GpioArgs(Some("dev123"), Some("evse"), Some("extinput0"), 0, Debounce.Falling, 4321, None)
    ensures var b := TelemetryBuildGpioPayload(true, 256, a);
            && b.ret == 242 && b.buffer == Some(PayloadText(a, Some(false)))
            && Text.Contains(b.buffer.value, "\"edge\":\"falling\"")
            && Text.Contains(b.buffer.value, "\"run_id\":null")
  {
    DecimalsUsedBelow();
    PayloadLength(a, Some(false));
    EdgeField(a, Some(false));
    RunIdField(a, Some(false));
    HostNeedles();
  }

  /** The first call into a 16-byte buffer reports -1 and leaves the first
      15 characters. */
  lemma SmallBufferTruncates(a: GpioArgs)
    requires a == GpioArgs(Some("dev123"), Some("evse"), Some("extinput0"), 1, Debounce.Rising, 1234,
                           Some("abcd1234"))
    ensures var b := GpioEventBuildPayload(true, 16, a);
            b.ret == -1 && b.buffer == Some("{\"schema_versio")
  {
    var t := PayloadText(a, None);
    var open := "{\"schema_version\":\"1.0\",\"device_id\":\"";
    assert open <= t;
    assert t[..15] == open[..15];
    HostNeedles();
  }

  /** NULL pointers and a zero-length buffer are rejected without writing. */
  lemma GuardCases(a: GpioArgs, anomaly: bool)
    ensures TelemetryBuildGpioPayloadEx(false, 64, a, anomaly) == Built(-1, None)
    ensures TelemetryBuildGpioPayloadEx(true, 0, a, anomaly) == Built(-1, None)
    ensures TelemetryBuildGpioPayloadEx(true, 64, a.(deviceId := None), anomaly) == Built(-1, None)
    ensures GpioEventBuildPayload(true, 64, a.(pinAlias := None)) == Built(-1, None)
  {
  }
}
