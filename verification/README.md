# EVSE interlock: decision layer and provisioning helpers

This project models the parts of an EV-charger (EVSE) interlock firmware
that make decisions and track state. It also models the pure string
helpers of the batch provisioning tool. All of it is written as immutable
Dafny records with pure step functions, and the behaviour the source
promises is proved about those functions:

- **Debounce:** the GPIO debouncer (`gpio_event_update`). It is a
  pending/stable filter over millisecond time that reports a rising,
  falling or unknown edge once a new level has held for the window. The
  two identical copies of it are modelled once.
- **SafetyGate:** the safety gate. It is the single allow/deny point for
  energising the vehicle. It keeps a latched fault set, wraps the
  debouncer on the AC-presence input, and refuses timestamps that run
  backwards. It is proved fail-closed over every sequence of calls.
- **TimeSync:** the interlock's timestamp source. It clamps regressions
  and keeps a sticky anomaly flag. **TimeSyncLegacy:** the end device's
  older, unclamped variant.
- **Evse:** the SAE J1772 control-pilot ladder (states A-F), the PWM duty
  cycle, and the session state machine of `evse_poll`: session start on
  A to B, session end on the return to A, and energy counted only in C
  or D.
- **LineCurrent:** the line-current change detector. The first read seeds
  it; after that, a step of at least the threshold is reported.
- **GpioPayload:** the GPIO telemetry JSON builders. This covers their
  NULL and zero-length guards, the `snprintf` truncation check, and the
  quoted versus `null` run id.
- **SiteAddress:** the provisioning tool's address helpers. These are
  token canonicalisation, the US address parser, and the normaliser, with
  the property that normalised text parses back to the same fields.
- **Provision:** the batch provisioning row logic. This is the ZIP of a
  normalised address, the short serial, the 64-hex-digit Sidewalk serial
  check, and the accept/skip decision with the device name.
- **Text** and **Wrappers:** the shared helpers. Python's `strip`,
  `split` and `join` and the regex class `\s` use Python's full
  `str.isspace` white-space set, Unicode spaces included; `upper()` maps
  only ASCII letters and `\d` is only the ASCII digits. `%d`/`%lld`
  formatting is modelled as decimal text. `Option` stands for NULL and
  `None`.

C integers are unbounded `int`s. Energy, current and the duty cycle are
`real`s. A NULL pointer is `None`. The module statics of the C code are
explicit state records.

Two behaviours of the code worth knowing:

- **Session id on a start event.** `evse_poll` points the event's session
  id at the static id buffer, and does so before a session start
  regenerates the id (`app/sidewalk_end_device/src/evse.c:308`, `314`).
  So the first `session_start` after boot carries a NULL id, because the
  buffer was still zeroed. Every later event carries the buffer's current
  contents, which on a start is the new id. `Evse.Poll` states exactly
  this.
- **Unreachable empty check.** The row loop of the provisioning tool also
  skips a row whose normalised address is empty. No parsed address
  renders empty (`SiteAddress.RenderIsNotSentinel`, and the
  `InvalidAddress` case of `Provision.ProcessRow`), so that check never
  decides anything.

## Model

| member | source | states |
|---|---|---|
| Debounce.Init | app/evse_interlock_v1/src/telemetry/gpio_event.c:14-24 | init sets both levels to -1 and the last change to 0, keeps the window verbatim, and leaves the filter uninitialised |
| Debounce.EdgeOf | app/evse_interlock_v1/src/telemetry/gpio_event.c:26-35 | 0 to 1 is rising, 1 to 0 is falling, and every other pair is unknown (each an if-and-only-if) |
| Debounce.Step | app/evse_interlock_v1/src/telemetry/gpio_event.c:38-76 | a negative sample changes nothing; the first sample seeds both levels with no edge; a disagreeing sample restarts the window and keeps the stable level; `changed` is set exactly when the sample equals the pending level, the window has elapsed and pending differs from stable, and then pending becomes stable and the edge is classified (the end device's copy, `app/sidewalk_end_device/src/gpio_event.c`, has the same rules) |
| Debounce.StepHandle | app/evse_interlock_v1/src/telemetry/gpio_event.c:41-46 | a NULL state returns NONE with `changed` false; otherwise the step is applied |
| Debounce.EdgeName | app/evse_interlock_v1/src/telemetry/gpio_event.c:78-91 | the four edges print as "rising", "falling", "unknown" and "none" |
| Debounce.EdgeNameInjective | app/evse_interlock_v1/src/telemetry/gpio_event.c:78-91 | distinct edges have distinct names |
| Debounce.BinaryRunAlternates | app/evse_interlock_v1/src/telemetry/gpio_event.c:62-75 | on 0/1 input the reported edges are only rising or falling and never repeat a direction; the first leaves the initial stable level and the last names the final one |
| Debounce.StableRepeatIsQuiet | app/evse_interlock_v1/tests/telemetry/gpio_event/src/main.c:48-58 | repeating the stable level any number of times reports no edge and leaves the state unchanged |
| Debounce.HeldLevelFires | app/evse_interlock_v1/src/telemetry/gpio_event.c:62-75 | once a new level has been pending for the window, feeding it again fires its edge and makes it stable |
| Debounce.WindowFiftySequence | app/evse_interlock_v1/tests/telemetry/gpio_event/src/main.c:8-26 | with window 50: 0@0, 1@10 and 1@40 report nothing, and 1@70 reports a rising edge (the end device's test is the same sequence) |
| Debounce.WindowZeroSequence | app/evse_interlock_v1/tests/telemetry/gpio_event/src/main.c:28-46 | with window 0, each new level needs a repeated sample before it reports rising, then falling |
| Debounce.NoRepeatEdgeSequence | app/evse_interlock_v1/tests/telemetry/gpio_event/src/main.c:48-58 | a repeated first level reports nothing |
| SafetyGate.FlagsAreShifts | app/evse_interlock_v1/src/safety_gate/safety_gate.h:16-23 | the five fault constants are `1 << 0` to `1 << 4` |
| SafetyGate.FaultBitsAreDistinctSingleBits | app/evse_interlock_v1/src/safety_gate/safety_gate.h:16-23 | each flag is one non-zero bit and different flags share no bit |
| SafetyGate.WordHasBit | app/evse_interlock_v1/src/safety_gate/safety_gate.h:16-23 | a fault's bit is set in the flag word exactly when that fault is recorded |
| SafetyGate.WordNoneIffEmpty | app/evse_interlock_v1/src/safety_gate/safety_gate.c:55 | the flag word equals `SAFETY_FAULT_NONE` exactly when no fault is recorded |
| SafetyGate.Init | app/evse_interlock_v1/src/safety_gate/safety_gate.c:6-28 | init denies, clears the anomaly, sets the last timestamp to -1, records `DEBOUNCE_INVALID` exactly when the window is outside (0, 60000], and starts the debouncer with the window or with 0 |
| SafetyGate.UpdateAc | app/evse_interlock_v1/src/safety_gate/safety_gate.c:30-61 | an invalid configuration only denies; a negative sample adds AC_UNKNOWN and INVALID_INPUT and denies without feeding the filter; otherwise the filter steps and the EV is allowed exactly when no fault is recorded and the input is stable-absent for the window |
| SafetyGate.ApplyTimestamp | app/evse_interlock_v1/src/safety_gate/safety_gate.c:63-78 | a timestamp below a non-negative previous one latches TIMESTAMP_BACKWARD and the anomaly, denies, and returns the previous value; any other one (equal included) is recorded and returned; the result never falls below the previous value |
| SafetyGate.SetQueueOverflow | app/evse_interlock_v1/src/safety_gate/safety_gate.c:80-88 | overflow adds QUEUE_OVERFLOW, denies, and changes nothing else |
| SafetyGate.IsEvAllowed | app/evse_interlock_v1/src/safety_gate/safety_gate.c:90-93 | true exactly for a non-NULL gate that allows the EV |
| SafetyGate.HasFault | app/evse_interlock_v1/src/safety_gate/safety_gate.c:95-98 | true exactly for a non-NULL gate whose flag word shares a bit with the mask |
| SafetyGate.HasFaultOfBit | app/evse_interlock_v1/src/safety_gate/safety_gate.c:95-98 | asking for one flag asks whether that fault was recorded |
| SafetyGate.TimeAnomaly | app/evse_interlock_v1/src/safety_gate/safety_gate.c:100-103 | true exactly for a non-NULL gate with the anomaly set |
| SafetyGate.Exec | app/evse_interlock_v1/src/safety_gate/safety_gate.c:13-15 | every call through a NULL gate is a no-op, and applying a timestamp through NULL echoes the timestamp |
| SafetyGate.InitIsFailClosed | app/evse_interlock_v1/src/safety_gate/safety_gate.h:4 | a freshly initialised gate satisfies the fail-closed invariant |
| SafetyGate.ApplyKeepsFailClosed | app/evse_interlock_v1/src/safety_gate/safety_gate.h:4 | each call keeps the invariant (allowed implies no fault, a valid window and a settled absent reading) and the configuration verdict |
| SafetyGate.ApplyOnlyGrows | app/evse_interlock_v1/src/safety_gate/safety_gate.c:42 | no call removes a fault or clears the anomaly flag |
| SafetyGate.RunKeepsFailClosed | app/evse_interlock_v1/src/safety_gate/safety_gate.h:4 | the invariant holds after any sequence of calls |
| SafetyGate.RunFaultsOnlyGrow | app/evse_interlock_v1/src/safety_gate/safety_gate.c:42 | over any sequence of calls the fault set and the anomaly flag only grow |
| SafetyGate.FaultsLatchDeny | app/evse_interlock_v1/src/safety_gate/safety_gate.c:55-58 | every gate reachable from init is fail-closed, and once any fault is recorded no later sequence of calls allows the EV |
| SafetyGate.InvalidWindowDeniesForever | app/evse_interlock_v1/src/safety_gate/safety_gate.c:36-39 | with an invalid window the EV is denied after any sequence of calls and DEBOUNCE_INVALID stays recorded |
| SafetyGate.AcPresentAtBootDenies | app/evse_interlock_v1/tests/telemetry/host/main.c:79-87 | AC present at boot leaves the EV denied |
| SafetyGate.AcToggleWithinWindowDenies | app/evse_interlock_v1/tests/telemetry/host/main.c:89-100 | toggling 0, 1, 0 inside the window leaves the EV denied |
| SafetyGate.AcUnknownFaults | app/evse_interlock_v1/tests/telemetry/host/main.c:102-111 | an unknown AC sample denies and records AC_UNKNOWN and INVALID_INPUT |
| SafetyGate.BackwardTimestampClamps | app/evse_interlock_v1/tests/telemetry/host/main.c:113-126 | 1000 then 900 returns 1000, denies, and records the fault and the anomaly |
| SafetyGate.QueueOverflowDenies | app/evse_interlock_v1/tests/telemetry/host/main.c:128-137 | overflow denies and records QUEUE_OVERFLOW |
| SafetyGate.TimestampWithoutSyncDenies | app/evse_interlock_v1/tests/telemetry/host/main.c:139-148 | a first timestamp neither allows the EV nor raises an anomaly |
| SafetyGate.InvalidDebounceDenies | app/evse_interlock_v1/tests/telemetry/host/main.c:150-160 | window 0 denies, records DEBOUNCE_INVALID, and still denies after an absent reading |
| SafetyGate.NullGateIsInert | app/evse_interlock_v1/tests/telemetry/host/main.c:162-176 | calls through NULL do nothing, queries answer false, and the timestamp is echoed |
| SafetyGate.SettledAbsentAllows | app/evse_interlock_v1/src/safety_gate/safety_gate.c:49-60 | an absent reading held for the window does allow the EV, so the gate is not stuck at deny |
| TimeSync.Init | app/evse_interlock_v1/src/sidewalk/time_sync.c:15-21 | init sets offset 0, unsynced, last value -1, and no anomaly |
| TimeSync.ApplyEpoch | app/evse_interlock_v1/src/sidewalk/time_sync.c:24-33 | an epoch behind the last emitted value sets the anomaly and rebases the offset on that value; otherwise the offset becomes epoch minus uptime; the source is synced either way |
| TimeSync.GetTimestamp | app/evse_interlock_v1/src/sidewalk/time_sync.c:36-50 | the candidate is uptime, or offset plus uptime once synced; a candidate below the last value is clamped to it, sets the anomaly and, when synced, rebases the offset; the result becomes the new last value and never falls below the old one |
| TimeSync.RunMonotone | app/evse_interlock_v1/src/sidewalk/time_sync.c:40-49 | over any sequence of calls no timestamp falls below a non-negative starting value, and from the first non-negative timestamp on, the timestamps are non-decreasing |
| TimeSync.RunKeepsAnomalyAndSync | app/evse_interlock_v1/src/sidewalk/time_sync.c:20-41 | once set, the anomaly flag and the synced flag stay set |
| TimeSync.UnsyncedIsUptime | app/evse_interlock_v1/src/sidewalk/time_sync.c:38 | before sync, a reading at least the last value is the uptime itself, with no new anomaly |
| TimeSync.EpochReadBack | app/evse_interlock_v1/src/sidewalk/time_sync.c:24-38 | an accepted epoch is read back shifted by the elapsed uptime |
| TimeSync.BackwardEpochScenario | app/evse_interlock_v1/tests/telemetry/host/main.c:178-195 | get(1000) is 1000 with no anomaly; after apply(500, 1000), get(1100) is 1100 with the anomaly; get(1200) is 1200 |
| TimeSyncLegacy.Init | app/sidewalk_end_device/src/time_sync.c:9-13 | init sets offset 0 and unsynced |
| TimeSyncLegacy.Apply | app/sidewalk_end_device/src/time_sync.c:15-19 | the offset is replaced by epoch minus uptime, with no clamp, and the clock is synced |
| TimeSyncLegacy.Get | app/sidewalk_end_device/src/time_sync.c:21-24 | unsynced it returns the uptime; synced it returns offset plus uptime |
| TimeSyncLegacy.SyncedIffApplied | app/sidewalk_end_device/src/time_sync.c:26-29 | from init, the clock is synced exactly when some apply happened |
| TimeSyncLegacy.ReadBack | app/sidewalk_end_device/src/time_sync.c:15-24 | after apply(e, u0), get(u) is e - u0 + u, so get(u0) is e |
| TimeSyncLegacy.RunsBackward | app/sidewalk_end_device/src/time_sync.c:15-19 | the backward epoch that the interlock's source clamps does move this clock backwards |
| Evse.Classify | app/sidewalk_end_device/src/evse.c:179-197 | each state A-F holds exactly on its millivolt band, shifted by the tolerance, and the result is never UNKNOWN |
| Evse.ClassifyMonotone | app/sidewalk_end_device/src/evse.c:179-197 | a higher pilot voltage never gives a later state |
| Evse.NominalBandEdges | app/sidewalk_end_device/src/evse.c:181-195 | at tolerance 0, each band's lower edge lands in the band and one millivolt less lands in the next |
| Evse.ToChar | app/sidewalk_end_device/src/evse.c:199-217 | A-F print as their letters and UNKNOWN prints as '?' |
| Evse.ToCharInjective | app/sidewalk_end_device/src/evse.c:199-217 | distinct states print distinct letters |
| Evse.DutyCycle | app/sidewalk_end_device/src/evse.c:107-115 | 0 for a non-positive period, a non-positive high time, or a high time above the period; otherwise high*100/period, which lies in (0, 100] |
| Evse.Init | app/sidewalk_end_device/src/evse.c:271-276 | init sets the state to UNKNOWN, the proximity to the pin read, energy 0, an empty id, inactive, and the energy timestamp 0 |
| Evse.AccruedOnlyWhileCharging | app/sidewalk_end_device/src/evse.c:292-300 | energy changes only in C or D, after an earlier poll, with time moving forward and non-zero current and voltage, and it never decreases for non-negative current and voltage |
| Evse.Poll | app/sidewalk_end_device/src/evse.c:280-327 | the event carries the classified state, proximity, duty and current; it is sent exactly when state or proximity changed; A to B starts a session with the fresh id, active, and energy reset after the event captured the accrued total; a change to A in an active session ends it and keeps the id; every poll other than a start keeps the accrued energy in the session, session end included; the event's id is the buffer when that was non-empty; last state, proximity and energy timestamp are always updated |
| Evse.PollHandle | app/sidewalk_end_device/src/evse.c:282-284 | a NULL event returns false and changes nothing |
| Evse.FirstPollSends | app/sidewalk_end_device/src/evse.c:272 | since classification never yields UNKNOWN, the first poll after init always sends, as a state change with energy 0 |
| Evse.PollKeepsSessionWellFormed | app/sidewalk_end_device/src/evse.c:313-321 | an active session has an id and is not in state A, and one poll keeps that |
| Evse.RunKeepsSessionWellFormed | app/sidewalk_end_device/src/evse.c:311-326 | that session invariant holds after any sequence of polls |
| Evse.InitIsWellFormed | app/sidewalk_end_device/src/evse.c:271-276 | the initial session satisfies the invariant |
| Evse.EnergyNonDecreasing | app/sidewalk_end_device/src/evse.c:292-300 | with non-negative currents and voltage, energy never decreases over polls without a session start |
| Evse.ChargeCycleScenario | app/sidewalk_end_device/src/evse.c:280-327 | A, then B (session start, 50% duty), an hour of C at 10 A and 240 V (2.4 kWh), then A (session end carrying 2.4 kWh) |
| LineCurrent.Init | app/evse_interlock_v1/src/telemetry/line_current.c:92-93 | init sets the last current to 0 and leaves the detector uninitialised |
| LineCurrent.Poll | app/evse_interlock_v1/src/telemetry/line_current.c:97-126 | a NULL event or a failed read returns false and changes nothing; otherwise the event carries the reading and "current_change", the reading becomes the reference, and it sends exactly when the detector was initialised and the step is at least the threshold |
| LineCurrent.RunIsLastOk | app/evse_interlock_v1/src/telemetry/line_current.c:104-124 | after init and any reads, the reference is the last successful reading, and the detector is initialised exactly when there was one |
| LineCurrent.SendIffFarFromLastOk | app/evse_interlock_v1/src/telemetry/line_current.c:112-119 | after any history, a reading is sent exactly when an earlier read succeeded and it is at least the threshold from the latest one |
| LineCurrent.FailedReadIsInvisible | app/evse_interlock_v1/src/telemetry/line_current.c:104-106 | a failed read leaves the detector unchanged |
| LineCurrent.ThresholdScenario | app/evse_interlock_v1/src/telemetry/line_current.c:112-124 | with 500 mA: 1.0 A seeds, 1.2 A is quiet, 1.7 A sends, a failed read is quiet and changes nothing, and 1.2 A sends |
| GpioPayload.Snprintf | app/sidewalk_end_device/src/gpio_event.c:102-121 | the buffer keeps the longest prefix of the text that fits before the terminator, the full length is returned, and the buffer holds the whole text exactly when it is shorter than the buffer |
| GpioPayload.RunIdNullIffAbsent | app/sidewalk_end_device/src/gpio_event.c:101-119 | the run id value is `null` exactly for a NULL or empty run id; otherwise it is the run id between quotes |
| GpioPayload.Build | app/sidewalk_end_device/src/gpio_event.c:93-124 | a NULL buffer, pin alias, device id or device type, or a zero length, returns -1 without writing; otherwise it returns -1 exactly when the text does not fit with its terminator, and else the text's length, below the buffer length, with the whole text written |
| GpioPayload.GpioEventBuildPayload | app/sidewalk_end_device/src/gpio_event.c:89-125 | the guard and fit rules, with the format that has no time_anomaly field |
| GpioPayload.TelemetryBuildGpioPayloadEx | app/sidewalk_end_device/src/telemetry/telemetry_gpio.c:16-57 | the guard and fit rules, with the format that carries time_anomaly |
| GpioPayload.TelemetryBuildGpioPayload | app/sidewalk_end_device/src/telemetry/telemetry_gpio.c:8-14 | equals the `_ex` builder with time_anomaly false |
| GpioPayload.TailsAreSuffixes | app/sidewalk_end_device/src/telemetry/telemetry_gpio.c:29-51 | the text from "timestamp", the optional anomaly field, "run_id", "edge" and "uptime_ms" on are each suffixes of the payload |
| GpioPayload.RunIdField | app/sidewalk_end_device/src/telemetry/telemetry_gpio.c:29-51 | a non-empty run id appears quoted as `"run_id":"<id>"`; a NULL or empty one appears as `"run_id":null` |
| GpioPayload.EdgeField | app/sidewalk_end_device/src/gpio_event.c:97-109 | the payload contains `"edge":"<gpio_edge_str(edge)>"` |
| GpioPayload.TimestampIsUptime | app/sidewalk_end_device/src/gpio_event.c:102-109 | both the timestamp and the uptime_ms fields carry the uptime's decimal text |
| GpioPayload.AnomalyFieldLiteral | app/sidewalk_end_device/src/telemetry/telemetry_gpio.c:37-39 | the `_ex` payload contains `"time_anomaly":true,` or `"time_anomaly":false,` |
| GpioPayload.PayloadLength | app/sidewalk_end_device/src/telemetry/telemetry_gpio.c:41-50 | the payload's length is the format's 182 fixed characters plus the lengths of the rendered arguments and of the time_anomaly field when present |
| GpioPayload.HostPayloadWithRunId | app/sidewalk_end_device/tests/host/main.c:31-36 | the test's first call writes 247 characters into 256 bytes, containing the rising edge and the quoted run id |
| GpioPayload.HostPayloadWithoutRunId | app/sidewalk_end_device/tests/host/main.c:38-42 | the second call writes 242 characters, containing the falling edge and `"run_id":null` |
| GpioPayload.SmallBufferTruncates | app/sidewalk_end_device/src/gpio_event.c:121-123 | the same payload into 16 bytes returns -1 and leaves its first 15 characters |
| GpioPayload.GuardCases | app/sidewalk_end_device/src/telemetry/telemetry_gpio.c:21-23 | a NULL buffer, a zero length, or a NULL device id or pin alias returns -1 without writing |
| Text.Upper | tools/site_id_from_address.py:64 | `upper()`: same length, each character upper-cased (ASCII) |
| Text.Strip | tools/site_id_from_address.py:65 | `strip()`: the result is a slice of the input with no white space at either end |
| Text.StripBounds | tools/site_id_from_address.py:65 | `strip()` cuts exactly a white-space prefix and a white-space suffix: the result is `s[a..b]` with every character before `a` and from `b` on white space |
| Text.StripEmptyIffAllSpace | tools/site_id_from_address.py:65 | a stripped piece is empty exactly when it was all white space |
| Text.JoinSplitOn | tools/site_id_from_address.py:65 | `split(",")` loses nothing: joining its pieces with the separator gives back the input |
| Text.SplitOnPieces | tools/site_id_from_address.py:65 | the pieces of `split(",")` hold no comma and only characters of the input |
| Text.Runs | tools/provision_batch.py:62 | `split()`: every piece is non-empty and free of white space |
| Text.IntToDecRoundTrip | app/sidewalk_end_device/src/gpio_event.c:107 | `%d`/`%lld` text is an optional minus and digits, and it reads back as the number |
| SiteAddress.MapToks | tools/site_id_from_address.py:54-56 | each token is replaced by its image in the table, or kept when it is not a key |
| SiteAddress.Squash | tools/site_id_from_address.py:52 | after the substitution only A-Z, 0-9 and spaces remain |
| SiteAddress.SquashKeepsRuns | tools/site_id_from_address.py:52 | the substitution keeps every maximal run of A-Z/0-9 unchanged and in order |
| SiteAddress.TokensAreAlnumRuns | tools/site_id_from_address.py:51-54 | the tokens are exactly the maximal A-Z/0-9 runs of the upper-cased address |
| SiteAddress.DottedKeysUnused | tools/site_id_from_address.py:12-47 | no token contains a period, so the dotted keys never apply |
| SiteAddress.Canonicalize | tools/site_id_from_address.py:50-57 | the output holds only A-Z, 0-9 and single inner spaces, and its words are the mapped A-Z/0-9 runs of the upper-cased input |
| SiteAddress.CanonicalizeIsJoin | tools/site_id_from_address.py:50-57 | the output is the mapped runs joined with single spaces |
| SiteAddress.ValuesAreFixed | tools/site_id_from_address.py:12-47 | every value of the table is a word the table maps to itself |
| SiteAddress.ExpansionsAreFixed | tools/site_id_from_address.py:12-47 | no spelled-out form except UNIT is a key, and UNIT maps to itself |
| SiteAddress.MapTokIdempotent | tools/site_id_from_address.py:55 | mapping a token twice is mapping it once |
| SiteAddress.CanonicalizeIdempotent | tools/site_id_from_address.py:50-57 | canonicalising twice equals canonicalising once |
| SiteAddress.MatchAt | tools/site_id_from_address.py:75 | a match at a position is two letters, the whole white-space run, five digits, and nothing, four digits, or a hyphen and four digits to the end |
| SiteAddress.MatchAtComplete | tools/site_id_from_address.py:75 | every way the pattern can match at a position is the one found there, so greedy `\s*` loses nothing |
| SiteAddress.MatchAtUnique | tools/site_id_from_address.py:75 | at most one position matches, so the leftmost choice of `re.search` never matters |
| SiteAddress.Search | tools/site_id_from_address.py:75-77 | `re.search` returns a match at some position, or fails exactly when no position matches |
| SiteAddress.ParseUsAddress | tools/site_id_from_address.py:63-86 | the parse fails exactly when fewer than three non-empty stripped parts remain or the last part has no match; on success the street is the first part, the city the second-to-last, the unit the middle parts joined by ", " (empty for three parts), and the state and ZIP groups are the well-shaped match in the last part |
| SiteAddress.PartsAreParts | tools/site_id_from_address.py:64-65 | every part is non-empty, stripped, upper-case and comma-free |
| SiteAddress.Normalize | tools/site_id_from_address.py:89-98 | the result is never None; it is the INVALID_FORMAT sentinel exactly when the parse fails |
| SiteAddress.RenderEndsWithZip | tools/site_id_from_address.py:93-98 | normalised text ends in a space and ZIP5 or ZIP5-ZIP4 |
| SiteAddress.RenderIsNotSentinel | tools/site_id_from_address.py:89-98 | no rendered address equals the sentinel or is empty |
| SiteAddress.RenderIsJoin | tools/site_id_from_address.py:93-98 | normalised text is the street, the unit parts, the city, and "ST ZIP" joined with ", " |
| SiteAddress.CleanSplitJoin | tools/site_id_from_address.py:65 | splitting parts joined with ", " and cleaning them gives back the parts |
| SiteAddress.StateZipTextMatches | tools/site_id_from_address.py:75-78 | the rendered "ST ZIP" text matches the pattern with the same groups |
| SiteAddress.ReparseRendered | tools/site_id_from_address.py:63-98 | rendering fields taken from parts parses back to exactly those fields |
| SiteAddress.NormalizeReparses | tools/site_id_from_address.py:89-98 | normalised text parses to the same fields as the original address |
| SiteAddress.NormalizeIdempotent | tools/site_id_from_address.py:89-98 | normalising twice equals normalising once, the sentinel included |
| SiteAddress.SentinelDoesNotParse | tools/site_id_from_address.py:60 | the sentinel itself does not parse |
| Provision.ParseZip | tools/provision_batch.py:60-65 | the result is the last white-space separated token, or "" exactly when there is none |
| Provision.ZipOfNormalized | tools/provision_batch.py:254-255 | on a normalised address the ZIP found is ZIP5 or ZIP5-ZIP4 of the parse |
| Provision.ShortSerial | tools/provision_batch.py:68-70 | the result ends the stripped serial and has length min(8, stripped length) |
| Provision.ValidSidewalkSn | tools/provision_batch.py:73-74 | true exactly for 64 characters that are all hex digits of either case |
| Provision.ShortSerialOfValid | tools/provision_batch.py:68-74 | for a valid serial the short serial is its last eight digits |
| Provision.First8 | tools/provision_batch.py:254 | `[:8]`: a prefix of length min(8, length) |
| Provision.ProcessRow | tools/provision_batch.py:236-274 | skips are missing address, invalid address, missing serial and bad serial, in that order; a row proceeds exactly when the address is non-empty, it parses, and the chosen serial (the row's own, else the certificate's when a path is given) is valid; then the outcome carries the normalised address, the first eight characters of its site id, its ZIP, the serial, and the device name |
| Provision.ProvisionedNames | tools/provision_batch.py:253-274 | a provisioned row is named "sw-rak4630-" + site id prefix + "-" + the serial's last eight digits, of length 20 + min(8, site id length), and its ZIP is the parsed ZIP5[-ZIP4] |
| Provision.RowSerialWins | tools/provision_batch.py:257-258 | a serial in the row makes the certificate irrelevant |

## Left out

- **Hardware reads.** The ADC channels, the proximity pin, the PWM capture ISR, and `evse_read_raw` are not modelled. Their results are inputs of a poll (`Evse.Reading`, `LineCurrent.Poll`'s `reading`).
- **Device setup.** The device checks and pin configuration in `evse_init` and `line_current_init`, and their `-ENODEV`/`-EINVAL` returns, are left out. Only the state reset at the end is modelled.
- **Session id generation.** `session_id_new` formats random numbers into an id. The model takes a fresh non-empty token as an input of each poll.
- **Float arithmetic.** Energy, duty cycle and current are `real`s, so IEEE single-precision rounding is not modelled. `dt_h > 0` is modelled as a later timestamp.
- **Line current in amps.** The line-current reading is kept in integer milliamps. The source compares float amps against `LINE_CURRENT_DELTA_MA / 1000.0f`; that float comparison is not modelled.
- **Kconfig values.** The pilot tolerance, the nominal voltage and the line-current threshold have no values in the source. They are parameters.
- **64-bit integers.** `int64_t` timestamps and offsets are unbounded, so overflow in `now - last_change` or `epoch - uptime` is not modelled.
- **C strings.** Strings are their contents, and NUL-termination is not modelled. `snprintf` failing with a negative return is not modelled. JSON escaping of the argument strings is not modelled either, matching the source, which does none.
- **Other serialisers.** The EVSE and line-current payload builders and `telemetry_evse.c` depend on `%.2f`/`%.3f`/`%.4f` float formatting, so they are not part of this model.
- **Application wiring.** Timers, work queues, ISRs, Sidewalk and BLE callbacks, and the time-sync downlink parsing are left out, as is the concurrency between ISR and work-queue access to the debouncer.
- **Site id encryption.** `site_id_encrypt` (AES-SIV and base32) is a parameter of `Provision.ProcessRow`. Key generation is not modelled.
- **Certificate file.** Reading the certificate JSON is the `certSmsn` parameter, which is `None` when the file, the JSON or the key is missing.
- **Tool I/O.** CSV reading (a `Provision.Row` is given), logging, flashing, subprocess calls and the AWS calls are left out. So are the cloud functions and the test scripts.
- **Unicode.** Python's `upper()` is modelled on ASCII letters only and `\d` on ASCII digits only, so non-ASCII case mapping and Unicode digits are not modelled. White space is Python's full `str.isspace` set.
- **Regex `$`.** Python's `$` also matches before a final newline. After `strip()` the last part never ends in a newline, so the model anchors at the end.
