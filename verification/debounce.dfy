/** The GPIO debouncer (`gpio_event_init` / `gpio_event_update`): a
    pending/stable filter over millisecond time that reports an edge once a
    new level has held for the debounce window. Levels are plain integers as
    in the source: a negative sample means "unreadable", and the stable and
    pending levels start at -1. */
module Debounce {
  import opened Wrappers

  datatype Edge = EdgeNone | Rising | Falling | EdgeUnknown

  /** `struct gpio_event_state`. */
  datatype DebounceState = DebounceState(
    last: int,          // last stable level
    pending: int,       // level currently being timed
    lastChange: int,    // time the pending level was last (re)started
    window: int,        // debounce window in ms
    initialized: bool)

  /** Outcome of one update: the new state, the edge returned and the
      `*changed` out-flag. */
  datatype Update = Update(state: DebounceState, edge: Edge, changed: bool)

  /** A sample fed to the debouncer: a level read at a time. */
  datatype Sample = Sample(level: int, at: int)

  function Init(window: int): (st: DebounceState)
    ensures st.last == -1 && st.pending == -1 && st.lastChange == 0
    ensures st.window == window && !st.initialized
  {
    DebounceState(-1, -1, 0, window, false)
  }

  /** `gpio_event_edge`: classification of a stable-level transition. */
  function EdgeOf(prev: int, next: int): (e: Edge)
    ensures e == Rising <==> prev == 0 && next == 1
    ensures e == Falling <==> prev == 1 && next == 0
    ensures e == EdgeUnknown <==> !(prev == 0 && next == 1) && !(prev == 1 && next == 0)
  {
    if prev == 0 && next == 1 then Rising
    else if prev == 1 && next == 0 then Falling
    else EdgeUnknown
  }

  /** The guard under which `gpio_event_update` fires an edge. */
  predicate Fires(st: DebounceState, level: int, now: int)
  {
    && level >= 0
    && st.initialized
    && level == st.pending
    && now - st.lastChange >= st.window
    && st.pending != st.last
  }

  /** `gpio_event_update` on a present state. */
  function Step(st: DebounceState, level: int, now: int): (u: Update)
    // unreadable samples are no-ops
    ensures level < 0 ==> u == Update(st, EdgeNone, false)
    // the first readable sample seeds both levels without an edge
    ensures level >= 0 && !st.initialized ==>
              u == Update(DebounceState(level, level, now, st.window, true), EdgeNone, false)
    // a disagreeing sample restarts the window and keeps the stable level
    ensures level >= 0 && st.initialized && level != st.pending ==>
              u == Update(st.(pending := level, lastChange := now), EdgeNone, false)
    // an edge is reported exactly when the pending level has held for the
    // window and differs from the stable level, and then it becomes stable
    ensures u.changed <==> Fires(st, level, now)
    ensures u.changed <==> u.edge != EdgeNone
    ensures u.changed ==> u.state == st.(last := st.pending) && u.edge == EdgeOf(st.last, st.pending)
    ensures level >= 0 && st.initialized && level == st.pending && !u.changed ==> u.state == st
    ensures u.state.window == st.window
  {
    if level < 0 then Update(st, EdgeNone, false)
    else if !st.initialized then
      Update(st.(initialized := true, last := level, pending := level, lastChange := now), EdgeNone, false)
    else if level != st.pending then
      Update(st.(pending := level, lastChange := now), EdgeNone, false)
    else if now - st.lastChange < st.window then Update(st, EdgeNone, false)
    else if st.pending == st.last then Update(st, EdgeNone, false)
    else Update(st.(last := st.pending), EdgeOf(st.last, st.pending), true)
  }

  /** `gpio_event_update` with a possibly-NULL state pointer. */
  function StepHandle(h: Option<DebounceState>, level: int, now: int): (r: (Option<DebounceState>, Edge, bool))
    ensures h.None? ==> r == (None, EdgeNone, false)
    ensures h.Some? ==> var u := Step(h.value, level, now); r == (Some(u.state), u.edge, u.changed)
  {
    match h
    case None => (None, EdgeNone, false)
    case Some(st) => var u := Step(st, level, now); (Some(u.state), u.edge, u.changed)
  }

  /** `gpio_edge_str`. */
  function EdgeName(e: Edge): (s: string)
    ensures e == Rising ==> s == "rising"
    ensures e == Falling ==> s == "falling"
    ensures e == EdgeUnknown ==> s == "unknown"
    ensures e == EdgeNone ==> s == "none"
  {
    match e
    case Rising => "rising"
    case Falling => "falling"
    case EdgeUnknown => "unknown"
    case EdgeNone => "none"
  }

  /** The four edge names are distinct, so a payload's edge text identifies
      the edge. */
  lemma EdgeNameInjective(e1: Edge, e2: Edge)
    ensures EdgeName(e1) == EdgeName(e2) ==> e1 == e2
  {
  }

  // -----------------------------------------------------------------------
  // Runs of samples

  /** State after feeding `samples` in order. */
  function Final(st: DebounceState, samples: seq<Sample>): DebounceState
    decreases |samples|
  {
    if samples == [] then st
    else Final(Step(st, samples[0].level, samples[0].at).state, samples[1..])
  }

  /** The edges reported while feeding `samples` (NONE results omitted). */
  function Fired(st: DebounceState, samples: seq<Sample>): seq<Edge>
    decreases |samples|
  {
    if samples == [] then []
    else
      var u := Step(st, samples[0].level, samples[0].at);
      (if u.changed then [u.edge] else []) + Fired(u.state, samples[1..])
  }

  /** Every sample is 0, 1 or unreadable. */
  predicate BinarySamples(samples: seq<Sample>)
  {
    forall i | 0 <= i < |samples| :: samples[i].level <= 1
  }

  /** Once seeded from binary samples, both levels are binary. */
  predicate BinaryState(st: DebounceState)
  {
    st.initialized ==> (st.last == 0 || st.last == 1) && (st.pending == 0 || st.pending == 1)
  }

  /** Only rising and falling edges, and never two of the same direction in
      a row. */
  predicate Alternates(es: seq<Edge>)
  {
    && (forall i | 0 <= i < |es| :: es[i] == Rising || es[i] == Falling)
    && (forall i | 0 <= i < |es| - 1 :: es[i] != es[i + 1])
  }

  /** Level an edge leaves as the stable level. */
  function LevelAfter(e: Edge): int
  {
    if e == Rising then 1 else 0
  }

  lemma AlternatesCons(e: Edge, rest: seq<Edge>)
    requires e == Rising || e == Falling
    requires Alternates(rest) && (rest != [] ==> rest[0] != e)
    ensures Alternates([e] + rest)
  {
    var es := [e] + rest;
    forall i | 0 <= i < |es| - 1 ensures es[i] != es[i + 1] {
      if i > 0 { assert es[i] == rest[i - 1] && es[i + 1] == rest[i]; }
    }
  }

  lemma BinaryTail(samples: seq<Sample>)
    requires samples != [] && BinarySamples(samples)
    ensures BinarySamples(samples[1..]) && samples[0].level <= 1
  {
    assert samples[0].level <= 1;
    forall i | 0 <= i < |samples[1..]| ensures samples[1..][i].level <= 1 {
      assert samples[1..][i] == samples[i + 1];
    }
  }

  /** One binary step keeps the state binary; a fired edge flips the stable
      level, any other step keeps an initialised stable level. */
  lemma BinaryStep(st: DebounceState, s: Sample)
    requires BinaryState(st) && s.level <= 1
    ensures var u := Step(st, s.level, s.at);
            && BinaryState(u.state)
            && (st.initialized ==> u.state.initialized)
            && (u.changed ==> u.state.last == 1 - st.last && u.edge == EdgeOf(st.last, 1 - st.last)
                              && (u.edge == Rising || u.edge == Falling)
                              && u.state.last == LevelAfter(u.edge))
            && (!u.changed && st.initialized ==> u.state.last == st.last)
  {
  }

  /** On a binary input the reported edges alternate: the first one leaves
      the stable level the initialised filter held, and the last one names
      the final stable level. */
  lemma {:induction false} BinaryRunAlternates(st: DebounceState, samples: seq<Sample>)
    requires BinaryState(st) && BinarySamples(samples)
    ensures var es := Fired(st, samples);
            && Alternates(es)
            && (st.initialized && es != [] ==> es[0] == EdgeOf(st.last, 1 - st.last))
            && (es != [] ==> Final(st, samples).last == LevelAfter(es[|es| - 1]))
            && (st.initialized && es == [] ==> Final(st, samples).last == st.last)
            && (st.initialized ==> Final(st, samples).initialized)
    decreases |samples|
  {
    if samples != [] {
      var s := samples[0];
      BinaryTail(samples);
      BinaryStep(st, s);
      var u := Step(st, s.level, s.at);
      BinaryRunAlternates(u.state, samples[1..]);
      var rest := Fired(u.state, samples[1..]);
      var es := Fired(st, samples);
      if u.changed {
        assert es == [u.edge] + rest;
        AlternatesCons(u.edge, rest);
        if rest != [] {
          assert es[|es| - 1] == rest[|rest| - 1];
        }
      } else {
        assert es == rest;
      }
    }
  }

  /** Repeating the stable level never reports an edge and leaves the state
      as it was. */
  lemma {:induction false} StableRepeatIsQuiet(st: DebounceState, samples: seq<Sample>)
    requires st.initialized && st.pending == st.last
    requires forall i | 0 <= i < |samples| :: samples[i].level == st.last
    ensures Fired(st, samples) == []
    ensures Final(st, samples) == st
    decreases |samples|
  {
    if samples != [] {
      StableRepeatIsQuiet(st, samples[1..]);
    }
  }

  /** Once a level has been pending for the window, feeding it again reports
      the edge to it (the filter does not stall). */
  lemma HeldLevelFires(st: DebounceState, now: int)
    requires st.initialized && st.pending >= 0 && st.pending != st.last
    requires now - st.lastChange >= st.window
    ensures Step(st, st.pending, now).edge == EdgeOf(st.last, st.pending)
    ensures Step(st, st.pending, now).state.last == st.pending
  {
  }

  // -----------------------------------------------------------------------
  // The host and ztest sequences

  /** Window 50: samples 0@0, 1@10, 1@40 report nothing and 1@70 rises. */
  lemma WindowFiftySequence()
    ensures var s0 := Init(50);
            var u1 := Step(s0, 0, 0);
            var u2 := Step(u1.state, 1, 10);
            var u3 := Step(u2.state, 1, 40);
            var u4 := Step(u3.state, 1, 70);
            && u1.edge == EdgeNone && !u1.changed
            && u2.edge == EdgeNone && !u2.changed
            && u3.edge == EdgeNone && !u3.changed
            && u4.edge == Rising && u4.changed
  {
  }

  /** Window 0: each new level needs a repeated sample before its edge. */
  lemma WindowZeroSequence()
    ensures var s0 := Step(Init(0), 0, 0).state;
            var u1 := Step(s0, 1, 1);
            var u2 := Step(u1.state, 1, 1);
            var u3 := Step(u2.state, 0, 2);
            var u4 := Step(u3.state, 0, 2);
            && u1.edge == EdgeNone && !u1.changed
            && u2.edge == Rising && u2.changed
            && u3.edge == EdgeNone && !u3.changed
            && u4.edge == Falling && u4.changed
  {
  }

  /** Window 0: a repeated first level reports nothing. */
  lemma NoRepeatEdgeSequence()
    ensures var s0 := Step(Init(0), 1, 0).state;
            var u := Step(s0, 1, 1);
            u.edge == EdgeNone && !u.changed
  {
  }
}
