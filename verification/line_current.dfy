/** The interlock's line-current change detector (`line_current.c`). The
    ADC read yields an integer `scaled` milliamp value that the source
    divides by 1000 into amps; the model keeps milliamps, and a failed read
    is `None`. The change threshold `LINE_CURRENT_DELTA_MA` is a
    parameter. */
module LineCurrent {
  import opened Wrappers

  /** `last_current_a` (in mA) and `current_initialized`. */
  datatype Detector = Detector(lastMa: int, initialized: bool)

  /** The state reset of `line_current_init`. */
  function Init(): (d: Detector)
    ensures d.lastMa == 0 && !d.initialized
  {
    Detector(0, false)
  }

  function Abs(x: int): nat
  {
    if x < 0 then -x else x
  }

  /** `struct line_current_event`. */
  datatype CurrentEvent = CurrentEvent(send: bool, currentMa: int, eventType: string)

  /** The detector afterwards, the returned flag, and the event as filled
      in (`None` when the call returned before touching it). */
  datatype Polled = Polled(detector: Detector, sent: bool, event: Option<CurrentEvent>)

  /** `line_current_poll`: `hasEvent` is a non-NULL event pointer, and
      `reading` the ADC result. */
  function Poll(d: Detector, hasEvent: bool, reading: Option<int>, deltaMa: int): (p: Polled)
    // NULL event or failed read: false, nothing changes
    ensures !hasEvent || reading.None? ==> p == Polled(d, false, None)
    ensures hasEvent && reading.Some? ==>
              && p.event == Some(CurrentEvent(p.sent, reading.value, "current_change"))
              // every successful read becomes the reference
              && p.detector == Detector(reading.value, true)
              // the first read only seeds; later ones send on a large enough step
              && (p.sent <==> d.initialized && Abs(reading.value - d.lastMa) >= deltaMa)
  {
    if !hasEvent then Polled(d, false, None)
    else match reading
      case None => Polled(d, false, None)
      case Some(x) =>
        var send := d.initialized && Abs(x - d.lastMa) >= deltaMa;
        Polled(Detector(x, true), send, Some(CurrentEvent(send, x, "current_change")))
  }

  /** The detector after polls with a valid event pointer, the last reading
      applied last. */
  function Run(d: Detector, rs: seq<Option<int>>, deltaMa: int): Detector
    decreases |rs|
  {
    if rs == [] then d
    else Poll(Run(d, rs[..|rs| - 1], deltaMa), true, rs[|rs| - 1], deltaMa).detector
  }

  /** The most recent successful reading. */
  function LastOk(rs: seq<Option<int>>): Option<int>
    decreases |rs|
  {
    if rs == [] then None
    else if rs[|rs| - 1].Some? then rs[|rs| - 1]
    else LastOk(rs[..|rs| - 1])
  }

  /** After init, the detector holds the last successful reading, and is
      initialised exactly when there was one. */
  lemma {:induction false} RunIsLastOk(rs: seq<Option<int>>, deltaMa: int)
    ensures Run(Init(), rs, deltaMa) == Detector(LastOk(rs).GetOr(0), LastOk(rs).Some?)
    decreases |rs|
  {
    if rs != [] {
      RunIsLastOk(rs[..|rs| - 1], deltaMa);
    }
  }

  /** After any history, a reading `x` is reported exactly when an earlier
      read succeeded and `x` differs from the latest such reading by at
      least the threshold. */
  lemma SendIffFarFromLastOk(rs: seq<Option<int>>, x: int, deltaMa: int)
    ensures Poll(Run(Init(), rs, deltaMa), true, Some(x), deltaMa).sent <==>
              LastOk(rs).Some? && Abs(x - LastOk(rs).value) >= deltaMa
  {
    RunIsLastOk(rs, deltaMa);
  }

  /** A failed read between two good ones is invisible. */
  lemma FailedReadIsInvisible(rs: seq<Option<int>>, deltaMa: int)
    ensures Run(Init(), rs + [None], deltaMa) == Run(Init(), rs, deltaMa)
  {
    assert (rs + [None])[..|rs|] == rs;
  }

  /** With a 500 mA threshold: 1.0 A seeds, 1.2 A is quiet, 1.7 A reports
      (0.5 A from 1.2 A), a failed read changes nothing, and 1.2 A reports. */
  lemma ThresholdScenario()
    ensures var d0 := Init();
            var p1 := Poll(d0, true, Some(1000), 500);
            var p2 := Poll(p1.detector, true, Some(1200), 500);
            var p3 := Poll(p2.detector, true, Some(1700), 500);
            var p4 := Poll(p3.detector, true, None, 500);
            var p5 := Poll(p4.detector, true, Some(1200), 500);
            && !p1.sent && !p2.sent && p3.sent && !p4.sent && p4.detector == p3.detector && p5.sent
  {
  }
}
