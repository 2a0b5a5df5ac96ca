/** The J1772 control-pilot layer of the end device (`evse.c`): the
    threshold ladder from pilot millivolts to states A-F, the PWM duty
    cycle, and the session state machine advanced by `evse_poll`.
    The hardware reads (pilot and current ADC channels, proximity pin,
    PWM capture) are inputs of a poll; energy, current and duty are reals;
    the random session id is an input token. */
module Evse {
  import opened Wrappers

  /** `enum evse_pilot_state`. */
  datatype PilotState = A | B | C | D | E | F | Unknown

  /** Position on the ladder, A (highest voltage) first. */
  function Rank(s: PilotState): nat
  {
    match s
    case A => 0
    case B => 1
    case C => 2
    case D => 3
    case E => 4
    case F => 5
    case Unknown => 6
  }

  /** `pilot_state_from_mv`, with tolerance `tol`
      (`CONFIG_..._EVSE_PILOT_TOLERANCE_MV`). */
  function Classify(mv: int, tol: int): (s: PilotState)
    ensures s != Unknown
    ensures s == A <==> mv >= 12000 - tol
    ensures s == B <==> 9000 - tol <= mv < 12000 - tol
    ensures s == C <==> 6000 - tol <= mv < 9000 - tol
    ensures s == D <==> 3000 - tol <= mv < 6000 - tol
    ensures s == E <==> -1000 - tol <= mv < 3000 - tol
    ensures s == F <==> mv < -1000 - tol
  {
    if mv >= 12000 - tol then A
    else if mv >= 9000 - tol then B
    else if mv >= 6000 - tol then C
    else if mv >= 3000 - tol then D
    else if mv >= -1000 - tol then E
    else F
  }

  /** A higher pilot voltage never gives a later state. */
  lemma ClassifyMonotone(mv1: int, mv2: int, tol: int)
    requires mv1 <= mv2
    ensures Rank(Classify(mv2, tol)) <= Rank(Classify(mv1, tol))
  {
  }

  /** The lower edge of each band, for tolerance 0, classifies into that
      band and one millivolt less into the next. */
  lemma NominalBandEdges()
    ensures Classify(12000, 0) == A && Classify(11999, 0) == B
    ensures Classify(9000, 0) == B && Classify(8999, 0) == C
    ensures Classify(6000, 0) == C && Classify(5999, 0) == D
    ensures Classify(3000, 0) == D && Classify(2999, 0) == E
    ensures Classify(-1000, 0) == E && Classify(-1001, 0) == F
  {
  }

  /** `evse_pilot_state_to_char`. */
  function ToChar(s: PilotState): (c: char)
    ensures s == Unknown <==> c == '?'
    ensures s != Unknown ==> c == "ABCDEF"[Rank(s)]
  {
    match s
    case A => 'A'
    case B => 'B'
    case C => 'C'
    case D => 'D'
    case E => 'E'
    case F => 'F'
    case Unknown => '?'
  }

  /** Distinct states print as distinct letters. */
  lemma ToCharInjective(s: PilotState, t: PilotState)
    requires ToChar(s) == ToChar(t)
    ensures s == t
  {
  }

  /** `pwm_get_duty_cycle` on the captured period and high time (in us),
      in percent. */
  function DutyCycle(period: int, high: int): (r: real)
    ensures period <= 0 || high <= 0 || high > period ==> r == 0.0
    ensures 0 < high <= period ==> 0.0 < r <= 100.0 && r * (period as real) == (high as real) * 100.0
  {
    if period <= 0 || high <= 0 || high > period then 0.0
    else (high as real) * 100.0 / (period as real)
  }

  /** A session id: `session_id_new` writes a random 36-character id, here
      any non-empty text. */
  type SessionToken = s: string | s != [] witness "x"

  /** The module's statics. `sessionId == []` is the zeroed buffer. */
  datatype Session = Session(
    lastState: PilotState,
    lastProx: bool,
    energyKwh: real,
    sessionId: string,
    active: bool,
    lastEnergyTs: int)

  /** The state reset at the end of `evse_init`; `prox` is the proximity
      pin read there. */
  function Init(prox: bool): (s: Session)
    ensures s.lastState == Unknown && s.lastProx == prox
    ensures s.energyKwh == 0.0 && s.sessionId == [] && !s.active && s.lastEnergyTs == 0
  {
    Session(Unknown, prox, 0.0, [], false, 0)
  }

  /** What one poll reads from the hardware. */
  datatype Reading = Reading(
    pilotMv: int,
    prox: bool,
    currentA: real,
    periodUs: int,
    highUs: int)

  /** The pilot tolerance and the nominal line voltage (Kconfig values). */
  datatype Config = Config(tolMv: int, nominalV: int)

  datatype EventType = StateChange | SessionStart | SessionEnd

  /** `struct evse_event`; `sessionId` is `None` for a NULL pointer. */
  datatype PilotEvent = PilotEvent(
    send: bool,
    state: PilotState,
    prox: bool,
    duty: real,
    currentA: real,
    energyKwh: real,
    eventType: EventType,
    sessionId: Option<string>)

  predicate Charging(s: PilotState)
  {
    s == C || s == D
  }

  /** The energy total after the accumulation step of `evse_poll`: power
      `currentA * V / 1000` kW over the elapsed hours, counted only while
      charging, after a previous poll, and when time moved forward. */
  function Accrued(s: Session, cfg: Config, state: PilotState, currentA: real, ts: int): real
  {
    if s.lastEnergyTs > 0 && Charging(state) && ts > s.lastEnergyTs then
      s.energyKwh + (currentA * (cfg.nominalV as real) / 1000.0) * ((ts - s.lastEnergyTs) as real / 3600000.0)
    else s.energyKwh
  }

  /** Energy changes only while charging after a previous poll, and then
      grows with non-negative current and voltage. */
  lemma AccruedOnlyWhileCharging(s: Session, cfg: Config, state: PilotState, currentA: real, ts: int)
    ensures Accrued(s, cfg, state, currentA, ts) != s.energyKwh ==>
              Charging(state) && s.lastEnergyTs > 0 && ts > s.lastEnergyTs
              && currentA != 0.0 && cfg.nominalV != 0
    ensures currentA >= 0.0 && cfg.nominalV >= 0 ==> Accrued(s, cfg, state, currentA, ts) >= s.energyKwh
  {
    var k := Accrued(s, cfg, state, currentA, ts);
    if s.lastEnergyTs > 0 && Charging(state) && ts > s.lastEnergyTs {
      var p := currentA * (cfg.nominalV as real) / 1000.0;
      var h := (ts - s.lastEnergyTs) as real / 3600000.0;
      assert h > 0.0;
      if currentA >= 0.0 && cfg.nominalV >= 0 {
        assert currentA * (cfg.nominalV as real) >= 0.0;
        assert p >= 0.0;
        assert p * h >= 0.0;
      }
    }
  }

  datatype Polled = Polled(session: Session, event: PilotEvent)

  /** `evse_poll` on a non-NULL event, reading `r` at time `ts`; `freshId`
      is the id `session_id_new` would produce. */
  function Poll(s: Session, cfg: Config, r: Reading, ts: int, freshId: SessionToken): (p: Polled)
    ensures var state := Classify(r.pilotMv, cfg.tolMv);
            && p.event.state == state && p.event.prox == r.prox
            && p.event.duty == DutyCycle(r.periodUs, r.highUs) && p.event.currentA == r.currentA
            && p.session.lastState == state && p.session.lastProx == r.prox
            && p.session.lastEnergyTs == ts
            // the event is sent exactly when the state or proximity changed
            && (p.event.send <==> state != s.lastState || r.prox != s.lastProx)
            // the event carries the energy accumulated before any reset
            && p.event.energyKwh == Accrued(s, cfg, state, r.currentA, ts)
            // the event points at the id buffer when it was non-empty
            && p.event.sessionId == (if s.sessionId == [] then None else Some(p.session.sessionId))
            // A -> B starts a session: new id, active, energy from zero
            && (p.event.eventType == SessionStart <==> s.lastState == A && state == B)
            && (p.event.eventType == SessionStart ==>
                  p.session.active && p.session.sessionId == freshId && p.session.energyKwh == 0.0)
            // an active session ends on a change to A, keeping its id
            && (p.event.eventType == SessionEnd <==>
                  p.event.send && !(s.lastState == A && state == B) && s.active && state == A)
            && (p.event.eventType == SessionEnd ==> !p.session.active)
            // every other poll keeps the session and its id
            && (p.event.eventType == StateChange ==> p.session.active == s.active)
            // only a start resets the energy; every other poll keeps what it accrued
            && (p.event.eventType != SessionStart ==> p.session.energyKwh == p.event.energyKwh)
            && (p.event.eventType != SessionStart ==> p.session.sessionId == s.sessionId)
  {
    var state := Classify(r.pilotMv, cfg.tolMv);
    var energy := Accrued(s, cfg, state, r.currentA, ts);
    var duty := DutyCycle(r.periodUs, r.highUs);
    var idPtr := s.sessionId != [];
    var changed := state != s.lastState || r.prox != s.lastProx;
    var s1 := s.(energyKwh := energy, lastEnergyTs := ts);
    var (s2, kind) :=
      if changed && s.lastState == A && state == B then
        (s1.(sessionId := freshId, active := true, energyKwh := 0.0), SessionStart)
      else if changed && s.active && state == A then
        (s1.(active := false), SessionEnd)
      else (s1, StateChange);
    var s3 := s2.(lastState := state, lastProx := r.prox);
    Polled(s3, PilotEvent(changed, state, r.prox, duty, r.currentA, energy, kind,
                          if idPtr then Some(s3.sessionId) else None))
  }

  /** `evse_poll` through a possibly-NULL event pointer: NULL returns false
      and reads nothing. */
  datatype Answer = Answer(session: Session, sent: bool, event: Option<PilotEvent>)

  function PollHandle(s: Session, cfg: Config, hasEvent: bool, r: Reading, ts: int,
                      freshId: SessionToken): (a: Answer)
    ensures !hasEvent ==> a == Answer(s, false, None)
    ensures hasEvent ==> a.event.Some? && a.sent == a.event.value.send
    ensures hasEvent ==> Polled(a.session, a.event.value) == Poll(s, cfg, r, ts, freshId)
  {
    if !hasEvent then Answer(s, false, None)
    else
      var p := Poll(s, cfg, r, ts, freshId);
      Answer(p.session, p.event.send, Some(p.event))
  }

  /** Classification never yields `Unknown`, so the first poll after init
      always reports. */
  lemma FirstPollSends(prox: bool, cfg: Config, r: Reading, ts: int, freshId: SessionToken)
    ensures Poll(Init(prox), cfg, r, ts, freshId).event.send
    ensures Poll(Init(prox), cfg, r, ts, freshId).event.eventType == StateChange
    ensures Poll(Init(prox), cfg, r, ts, freshId).event.energyKwh == 0.0
  {
  }

  /** The inputs of one poll. */
  datatype PollInput = PollInput(r: Reading, ts: int, freshId: SessionToken)

  function Run(s: Session, cfg: Config, ins: seq<PollInput>): Session
    decreases |ins|
  {
    if ins == [] then s
    else Run(Poll(s, cfg, ins[0].r, ins[0].ts, ins[0].freshId).session, cfg, ins[1..])
  }

  /** An active session always has an id and is never in state A: it
      started on entering B and ends on the return to A. */
  predicate SessionWellFormed(s: Session)
  {
    s.active ==> s.sessionId != [] && s.lastState != A && s.lastState != Unknown
  }

  lemma PollKeepsSessionWellFormed(s: Session, cfg: Config, r: Reading, ts: int, freshId: SessionToken)
    requires SessionWellFormed(s)
    ensures SessionWellFormed(Poll(s, cfg, r, ts, freshId).session)
  {
  }

  lemma {:induction false} RunKeepsSessionWellFormed(s: Session, cfg: Config, ins: seq<PollInput>)
    requires SessionWellFormed(s)
    ensures SessionWellFormed(Run(s, cfg, ins))
    decreases |ins|
  {
    if ins != [] {
      PollKeepsSessionWellFormed(s, cfg, ins[0].r, ins[0].ts, ins[0].freshId);
      RunKeepsSessionWellFormed(Poll(s, cfg, ins[0].r, ins[0].ts, ins[0].freshId).session, cfg, ins[1..]);
    }
  }

  lemma InitIsWellFormed(prox: bool)
    ensures SessionWellFormed(Init(prox))
  {
  }

  /** With non-negative current readings and voltage, the energy total only
      grows until a session start resets it. */
  predicate NoSessionStart(s: Session, cfg: Config, ins: seq<PollInput>)
    decreases |ins|
  {
    ins == [] ||
      (var p := Poll(s, cfg, ins[0].r, ins[0].ts, ins[0].freshId);
       p.event.eventType != SessionStart && NoSessionStart(p.session, cfg, ins[1..]))
  }

  lemma {:induction false} EnergyNonDecreasing(s: Session, cfg: Config, ins: seq<PollInput>)
    requires cfg.nominalV >= 0
    requires forall k :: 0 <= k < |ins| ==> ins[k].r.currentA >= 0.0
    requires NoSessionStart(s, cfg, ins)
    ensures Run(s, cfg, ins).energyKwh >= s.energyKwh
    decreases |ins|
  {
    if ins != [] {
      var i := ins[0];
      var p := Poll(s, cfg, i.r, i.ts, i.freshId);
      AccruedOnlyWhileCharging(s, cfg, Classify(i.r.pilotMv, cfg.tolMv), i.r.currentA, i.ts);
      assert forall k :: 0 <= k < |ins[1..]| ==> ins[1..][k].r.currentA >= 0.0 by {
        forall k | 0 <= k < |ins[1..]| ensures ins[1..][k].r.currentA >= 0.0 {
          assert ins[1..][k] == ins[k + 1];
        }
      }
      EnergyNonDecreasing(p.session, cfg, ins[1..]);
    }
  }

  /** A full plug-in cycle with tolerance 0: A, then B starts a session,
      C charges for an hour at 10 A on 240 V (2.4 kWh), and A ends it. */
  lemma ChargeCycleScenario(id: SessionToken)
    ensures var cfg := Config(0, 240);
            var p1 := Poll(Init(false), cfg, Reading(12000, false, 0.0, 0, 0), 1000, id);
            var p2 := Poll(p1.session, cfg, Reading(9000, true, 0.0, 1000, 500), 2000, id);
            var p3 := Poll(p2.session, cfg, Reading(6000, true, 10.0, 1000, 500), 3602000, id);
            var p4 := Poll(p3.session, cfg, Reading(12000, false, 0.0, 0, 0), 3603000, id);
            && p1.event.send && p1.event.eventType == StateChange && p1.event.sessionId == None
            && p2.event.eventType == SessionStart && p2.event.sessionId == None && p2.event.duty == 50.0
            && p2.session.active
            && p3.event.eventType == StateChange && p3.event.energyKwh == 2.4
            && p3.event.sessionId == Some(id)
            && p4.event.eventType == SessionEnd && !p4.session.active && p4.event.energyKwh == 2.4
  {
  }
}
