/** The EVSE interlock safety gate (`safety_gate.c` / `safety_gate.h`): the
    single allow/deny point for energising the EV. It wraps a debouncer on
    the AC-presence input, keeps a fault bitset that is only ever OR-ed
    into, and rejects timestamps that run backwards. Fail-closed: the EV is
    allowed only with no fault and a stable, absent AC reading. */
module SafetyGate {
  import opened Wrappers
  import Debounce

  /** `SAFETY_GATE_MAX_DEBOUNCE_MS`. */
  const MAX_DEBOUNCE_MS: int := 60000

  /** The bits of `uint32_t fault_flags`. */
  type Flags = bv32

  const FAULT_NONE: Flags := 0
  const FAULT_AC_UNKNOWN: Flags := 0x01
  const FAULT_DEBOUNCE_INVALID: Flags := 0x02
  const FAULT_TIMESTAMP_BACKWARD: Flags := 0x04
  const FAULT_QUEUE_OVERFLOW: Flags := 0x08
  const FAULT_INVALID_INPUT: Flags := 0x10

  /** The flag values are the shifts `1 << 0` ... `1 << 4`. */
  lemma FlagsAreShifts()
    ensures FAULT_AC_UNKNOWN == 1 << 0 && FAULT_DEBOUNCE_INVALID == 1 << 1
    ensures FAULT_TIMESTAMP_BACKWARD == 1 << 2 && FAULT_QUEUE_OVERFLOW == 1 << 3
    ensures FAULT_INVALID_INPUT == 1 << 4
  {
  }

  /** The five faults, one per flag. The gate keeps the set of recorded
      faults; `Word` is the flag word the C code stores. */
  datatype Fault = AcUnknown | DebounceInvalid | TimestampBackward | QueueOverflow | InvalidInput

  function Bit(f: Fault): Flags
  {
    match f
    case AcUnknown => FAULT_AC_UNKNOWN
    case DebounceInvalid => FAULT_DEBOUNCE_INVALID
    case TimestampBackward => FAULT_TIMESTAMP_BACKWARD
    case QueueOverflow => FAULT_QUEUE_OVERFLOW
    case InvalidInput => FAULT_INVALID_INPUT
  }

  /** The flags are distinct single bits, none of them is NONE, so a flag
      word is exactly a set of faults. */
  lemma FaultBitsAreDistinctSingleBits(f: Fault, g: Fault)
    ensures Bit(f) != FAULT_NONE && Bit(f) & (Bit(f) - 1) == 0
    ensures f != g ==> Bit(f) & Bit(g) == 0
  {
  }

  function BitIf(b: bool, f: Fault): Flags
  {
    if b then Bit(f) else FAULT_NONE
  }

  /** The flag word of a fault set: the OR of its faults' bits. */
  function Word(fs: set<Fault>): Flags
  {
    BitIf(AcUnknown in fs, AcUnknown) | BitIf(DebounceInvalid in fs, DebounceInvalid)
    | BitIf(TimestampBackward in fs, TimestampBackward) | BitIf(QueueOverflow in fs, QueueOverflow)
    | BitIf(InvalidInput in fs, InvalidInput)
  }

  /** A fault's bit is set in the word exactly when the fault is recorded. */
  lemma WordHasBit(fs: set<Fault>, f: Fault)
    ensures Word(fs) & Bit(f) != 0 <==> f in fs
  {
  }

  /** The word is `FAULT_NONE` exactly for the empty fault set. */
  lemma WordNoneIffEmpty(fs: set<Fault>)
    ensures Word(fs) == FAULT_NONE <==> fs == {}
  {
    if fs != {} {
      var f :| f in fs;
      WordHasBit(fs, f);
    }
  }

  /** `struct safety_gate`. */
  datatype Gate = Gate(
    ac: Debounce.DebounceState,
    evAllowed: bool,
    timeAnomaly: bool,
    debounceValid: bool,
    faults: set<Fault>,
    lastTimestamp: int)

  /** `debounce_valid`. */
  predicate DebounceValid(window: int)
  {
    0 < window <= MAX_DEBOUNCE_MS
  }

  /** `safety_gate_init`. */
  function Init(window: int): (g: Gate)
    ensures !g.evAllowed && !g.timeAnomaly && g.lastTimestamp == -1
    ensures g.debounceValid <==> 0 < window <= 60000
    ensures g.faults == (if g.debounceValid then {} else {DebounceInvalid})
    ensures g.ac == Debounce.Init(if g.debounceValid then window else 0)
  {
    var valid := DebounceValid(window);
    Gate(Debounce.Init(if valid then window else 0), false, false, valid,
         if valid then {} else {DebounceInvalid}, -1)
  }

  /** The debounced AC input reads "absent" and has done so for the window,
      measured at `now`. */
  predicate StableOff(ac: Debounce.DebounceState, now: int)
  {
    ac.initialized && ac.pending == 0 && ac.last == 0 && now - ac.lastChange >= ac.window
  }

  /** `safety_gate_update_ac`. */
  function UpdateAc(g: Gate, level: int, now: int): (g': Gate)
    // invalid configuration: deny, touch nothing else
    ensures !g.debounceValid ==> g' == g.(evAllowed := false)
    // unreadable input: record the ambiguity, deny, do not feed the filter
    ensures g.debounceValid && level < 0 ==>
              g' == g.(faults := g.faults + {AcUnknown, InvalidInput}, evAllowed := false)
    // readable input goes through the debouncer; the flags are kept
    ensures g.debounceValid && level >= 0 ==>
              g'.ac == Debounce.Step(g.ac, level, now).state && g'.faults == g.faults
              && g'.timeAnomaly == g.timeAnomaly && g'.lastTimestamp == g.lastTimestamp
              && g'.debounceValid
    // the decision: allowed exactly with no fault and a stable absent reading
    ensures g'.evAllowed <==> g.debounceValid && level >= 0 && g.faults == {} && StableOff(g'.ac, now)
  {
    if !g.debounceValid then g.(evAllowed := false)
    else if level < 0 then
      g.(faults := g.faults + {AcUnknown, InvalidInput}, evAllowed := false)
    else
      var ac := Debounce.Step(g.ac, level, now).state;
      g.(ac := ac, evAllowed := g.faults == {} && StableOff(ac, now))
  }

  /** A gate together with the timestamp `safety_gate_apply_timestamp`
      returned. */
  datatype Stamped = Stamped(gate: Gate, ts: int)

  /** `safety_gate_apply_timestamp`. */
  function ApplyTimestamp(g: Gate, ts: int): (r: Stamped)
    // the returned value is what the gate now remembers
    ensures r.gate.lastTimestamp == r.ts
    // a backwards timestamp is refused: the previous one is returned,
    // the fault and the anomaly are latched and the EV is denied
    ensures g.lastTimestamp >= 0 && ts < g.lastTimestamp ==>
              r == Stamped(g.(faults := g.faults + {TimestampBackward}, timeAnomaly := true,
                              evAllowed := false), g.lastTimestamp)
    // otherwise (equal timestamps included) it is accepted unchanged
    ensures !(g.lastTimestamp >= 0 && ts < g.lastTimestamp) ==> r == Stamped(g.(lastTimestamp := ts), ts)
    // accepted timestamps never move backwards
    ensures g.lastTimestamp >= 0 ==> r.ts >= g.lastTimestamp
    ensures r.ts >= ts
  {
    if g.lastTimestamp >= 0 && ts < g.lastTimestamp then
      Stamped(g.(faults := g.faults + {TimestampBackward}, timeAnomaly := true, evAllowed := false),
              g.lastTimestamp)
    else Stamped(g.(lastTimestamp := ts), ts)
  }

  /** `safety_gate_set_queue_overflow`. */
  function SetQueueOverflow(g: Gate): (g': Gate)
    ensures g' == g.(faults := g.faults + {QueueOverflow}, evAllowed := false)
    ensures !g'.evAllowed && QueueOverflow in g'.faults
  {
    g.(faults := g.faults + {QueueOverflow}, evAllowed := false)
  }

  // -----------------------------------------------------------------------
  // Queries; a NULL gate answers false

  /** `safety_gate_is_ev_allowed`. */
  function IsEvAllowed(h: Option<Gate>): (b: bool)
    ensures b <==> h.Some? && h.value.evAllowed
  {
    match h
    case None => false
    case Some(g) => g.evAllowed
  }

  /** `safety_gate_has_fault`: any bit of `mask` set in the flag word. */
  function HasFault(h: Option<Gate>, mask: Flags): (b: bool)
    ensures b <==> h.Some? && Word(h.value.faults) & mask != 0
  {
    match h
    case None => false
    case Some(g) => Word(g.faults) & mask != 0
  }

  /** Asking for one flag asks whether that fault was recorded. */
  lemma HasFaultOfBit(g: Gate, f: Fault)
    ensures HasFault(Some(g), Bit(f)) <==> f in g.faults
  {
    WordHasBit(g.faults, f);
  }

  /** `safety_gate_time_anomaly`. */
  function TimeAnomaly(h: Option<Gate>): (b: bool)
    ensures b <==> h.Some? && h.value.timeAnomaly
  {
    match h
    case None => false
    case Some(g) => g.timeAnomaly
  }

  // -----------------------------------------------------------------------
  // Commands, the NULL handle and runs

  /** The three mutating calls. */
  datatype Command = ObserveAc(level: int, now: int) | AdmitTimestamp(ts: int) | ReportOverflow

  function Apply(g: Gate, c: Command): Gate
  {
    match c
    case ObserveAc(level, now) => UpdateAc(g, level, now)
    case AdmitTimestamp(ts) => ApplyTimestamp(g, ts).gate
    case ReportOverflow => SetQueueOverflow(g)
  }

  /** Result of a call through a possibly-NULL handle; `stamp` is the
      returned timestamp for `AdmitTimestamp` and absent otherwise. */
  datatype Outcome = Outcome(gate: Option<Gate>, stamp: Option<int>)

  /** A call through a possibly-NULL handle: NULL is a no-op, and
      `safety_gate_apply_timestamp(NULL, ts)` echoes `ts`. */
  function Exec(h: Option<Gate>, c: Command): (r: Outcome)
    ensures r.stamp.Some? <==> c.AdmitTimestamp?
    ensures h.None? ==> r.gate == None && (c.AdmitTimestamp? ==> r.stamp == Some(c.ts))
    ensures h.Some? ==> r.gate == Some(Apply(h.value, c))
    ensures h.Some? && c.AdmitTimestamp? ==> r.stamp == Some(ApplyTimestamp(h.value, c.ts).ts)
  {
    match h
    case None => Outcome(None, if c.AdmitTimestamp? then Some(c.ts) else None)
    case Some(g) =>
      Outcome(Some(Apply(g, c)), if c.AdmitTimestamp? then Some(ApplyTimestamp(g, c.ts).ts) else None)
  }

  function Run(g: Gate, cs: seq<Command>): Gate
    decreases |cs|
  {
    if cs == [] then g else Run(Apply(g, cs[0]), cs[1..])
  }

  /** The gate's safety invariant: an allowed EV means no fault and a
      settled absent AC reading; an invalid configuration is recorded as a
      fault and denies. */
  predicate FailClosed(g: Gate)
  {
    && (g.evAllowed ==> g.faults == {} && g.debounceValid
                        && g.ac.initialized && g.ac.pending == 0 && g.ac.last == 0)
    && (!g.debounceValid ==> DebounceInvalid in g.faults && !g.evAllowed)
  }

  lemma InitIsFailClosed(window: int)
    ensures FailClosed(Init(window))
  {
  }

  /** One call keeps the invariant and the configuration verdict, and it
      never clears a fault or the anomaly flag. */
  lemma ApplyKeepsFailClosed(g: Gate, c: Command)
    requires FailClosed(g)
    ensures FailClosed(Apply(g, c))
    ensures Apply(g, c).debounceValid == g.debounceValid
  {
  }

  lemma ApplyOnlyGrows(g: Gate, c: Command)
    ensures g.faults <= Apply(g, c).faults
    ensures g.timeAnomaly ==> Apply(g, c).timeAnomaly
  {
  }

  /** Fail-closed holds after any sequence of calls, and the configuration
      verdict never changes. */
  lemma {:induction false} RunKeepsFailClosed(g: Gate, cs: seq<Command>)
    requires FailClosed(g)
    ensures FailClosed(Run(g, cs))
    ensures Run(g, cs).debounceValid == g.debounceValid
    decreases |cs|
  {
    if cs != [] {
      ApplyKeepsFailClosed(g, cs[0]);
      RunKeepsFailClosed(Apply(g, cs[0]), cs[1..]);
    }
  }

  /** The fault set and the anomaly flag only grow: nothing clears them. */
  lemma {:induction false} RunFaultsOnlyGrow(g: Gate, cs: seq<Command>)
    ensures g.faults <= Run(g, cs).faults
    ensures g.timeAnomaly ==> Run(g, cs).timeAnomaly
    decreases |cs|
  {
    if cs != [] {
      ApplyOnlyGrows(g, cs[0]);
      RunFaultsOnlyGrow(Apply(g, cs[0]), cs[1..]);
    }
  }

  /** Every gate reachable from `Init` is fail-closed, and once any fault has
      been recorded no later call can allow the EV. */
  lemma FaultsLatchDeny(window: int, cs: seq<Command>, more: seq<Command>)
    ensures FailClosed(Run(Init(window), cs))
    ensures Run(Init(window), cs).faults != {} ==> !Run(Run(Init(window), cs), more).evAllowed
  {
    InitIsFailClosed(window);
    RunKeepsFailClosed(Init(window), cs);
    var g := Run(Init(window), cs);
    RunKeepsFailClosed(g, more);
    RunFaultsOnlyGrow(g, more);
    var g' := Run(g, more);
  }

  /** An invalid window denies forever, whatever is observed. */
  lemma {:induction false} InvalidWindowDeniesForever(window: int, cs: seq<Command>)
    requires !DebounceValid(window)
    ensures !Run(Init(window), cs).evAllowed
    ensures DebounceInvalid in Run(Init(window), cs).faults
  {
    InitIsFailClosed(window);
    RunKeepsFailClosed(Init(window), cs);
  }

  // -----------------------------------------------------------------------
  // The host and ztest scenarios

  lemma AcPresentAtBootDenies()
    ensures !UpdateAc(Init(50), 1, 0).evAllowed
  {
  }

  lemma AcToggleWithinWindowDenies()
    ensures var g1 := UpdateAc(Init(50), 0, 0);
            var g2 := UpdateAc(g1, 1, 10);
            var g3 := UpdateAc(g2, 0, 20);
            !g2.evAllowed && !g3.evAllowed
  {
  }

  lemma AcUnknownFaults()
    ensures var g := UpdateAc(Init(50), -1, 10);
            !g.evAllowed && HasFault(Some(g), FAULT_AC_UNKNOWN) && HasFault(Some(g), FAULT_INVALID_INPUT)
  {
  }

  lemma BackwardTimestampClamps()
    ensures var r1 := ApplyTimestamp(Init(50), 1000);
            var r2 := ApplyTimestamp(r1.gate, 900);
            && r2.ts == 1000 && !r2.gate.evAllowed
            && HasFault(Some(r2.gate), FAULT_TIMESTAMP_BACKWARD) && TimeAnomaly(Some(r2.gate))
  {
  }

  lemma QueueOverflowDenies()
    ensures var g := SetQueueOverflow(Init(50));
            !g.evAllowed && HasFault(Some(g), FAULT_QUEUE_OVERFLOW)
  {
  }

  lemma TimestampWithoutSyncDenies()
    ensures var g := ApplyTimestamp(Init(50), 1234).gate;
            !IsEvAllowed(Some(g)) && !TimeAnomaly(Some(g))
  {
  }

  lemma InvalidDebounceDenies()
    ensures var g := Init(0);
            !g.evAllowed && HasFault(Some(g), FAULT_DEBOUNCE_INVALID) && !UpdateAc(g, 0, 0).evAllowed
  {
  }

  lemma NullGateIsInert()
    ensures Exec(None, ObserveAc(1, 0)).gate == None
    ensures Exec(None, AdmitTimestamp(100)).stamp == Some(100)
    ensures Exec(None, ReportOverflow).gate == None
    ensures !IsEvAllowed(None) && !HasFault(None, FAULT_INVALID_INPUT) && !TimeAnomaly(None)
  {
  }

  /** The gate is not stuck at deny: AC absent at 0 and still absent one
      window later allows the EV. */
  lemma SettledAbsentAllows()
    ensures var g1 := UpdateAc(Init(50), 0, 0);
            var g2 := UpdateAc(g1, 0, 50);
            !g1.evAllowed && g2.evAllowed
  {
  }
}
