/** The interlock's timestamp source (`sidewalk/time_sync.c`): raw uptime
    until a downlink epoch arrives, epoch offset plus uptime afterwards, and
    any regression clamped to the last value handed out, with a sticky
    anomaly flag. The module's globals become one explicit record;
    `time_sync_is_synced` and `time_sync_time_anomaly` read its `synced` and
    `anomaly` fields. */
module TimeSync {

  datatype TimeSource = TimeSource(
    offset: int,     // epoch_at_boot_ms
    synced: bool,    // time_synced
    last: int,       // last_timestamp_ms, -1 before the first one
    anomaly: bool)   // time_anomaly

  /** `time_sync_init`. */
  function Init(): (t: TimeSource)
    ensures t.offset == 0 && !t.synced && t.last == -1 && !t.anomaly
  {
    TimeSource(0, false, -1, false)
  }

  /** An incoming epoch would move time behind the last emitted value. */
  predicate Behind(t: TimeSource, value: int)
  {
    t.last >= 0 && value < t.last
  }

  /** `time_sync_apply_epoch_ms`: adopt the epoch, unless it lies behind
      the last timestamp, in which case rebase onto that timestamp and
      record the anomaly. */
  function ApplyEpoch(t: TimeSource, epoch: int, uptime: int): (t': TimeSource)
    ensures t'.synced && t'.last == t.last
    ensures t'.anomaly <==> t.anomaly || Behind(t, epoch)
    // the clock now reads the epoch (or the last timestamp) at `uptime`
    ensures t'.offset + uptime == (if Behind(t, epoch) then t.last else epoch)
  {
    if Behind(t, epoch) then t.(anomaly := true, offset := t.last - uptime, synced := true)
    else t.(offset := epoch - uptime, synced := true)
  }

  /** The unclamped reading at `uptime`. */
  function Candidate(t: TimeSource, uptime: int): int
  {
    if t.synced then t.offset + uptime else uptime
  }

  /** A source together with the value `time_sync_get_timestamp_ms`
      returned. */
  datatype Stamped = Stamped(source: TimeSource, ts: int)

  /** `time_sync_get_timestamp_ms`. */
  function GetTimestamp(t: TimeSource, uptime: int): (r: Stamped)
    // the returned value is remembered
    ensures r.source.last == r.ts
    // it is the candidate, raised to the last timestamp when that is larger
    ensures r.ts == (if Behind(t, Candidate(t, uptime)) then t.last else Candidate(t, uptime))
    ensures t.last >= 0 ==> r.ts >= t.last && r.ts >= Candidate(t, uptime)
    ensures r.source.anomaly <==> t.anomaly || Behind(t, Candidate(t, uptime))
    ensures r.source.synced == t.synced
    // once synced, the offset agrees with what was handed out
    ensures t.synced ==> r.source.offset + uptime == r.ts
    ensures !t.synced ==> r.source.offset == t.offset
  {
    var ts := Candidate(t, uptime);
    if Behind(t, ts) then
      Stamped(t.(anomaly := true, offset := if t.synced then t.last - uptime else t.offset,
                 last := t.last), t.last)
    else Stamped(t.(last := ts), ts)
  }

  /** The two mutating calls after init. */
  datatype Call = ApplyEpochCall(epoch: int, uptime: int) | GetCall(uptime: int)

  /** The source after a sequence of calls and the timestamps the `GetCall`s
      returned, in order. */
  datatype Trace = Trace(source: TimeSource, stamps: seq<int>)

  function Run(t: TimeSource, cs: seq<Call>): Trace
    decreases |cs|
  {
    if cs == [] then Trace(t, [])
    else match cs[0]
      case ApplyEpochCall(e, u) => Run(ApplyEpoch(t, e, u), cs[1..])
      case GetCall(u) =>
        var r := GetTimestamp(t, u);
        var rest := Run(r.source, cs[1..]);
        Trace(rest.source, [r.ts] + rest.stamps)
  }

  /** Every value is at least `lo`. */
  predicate AllAtLeast(s: seq<int>, lo: int)
  {
    forall k :: 0 <= k < |s| ==> s[k] >= lo
  }

  /** From each non-negative value on, nothing smaller follows. */
  predicate NonDecreasingFromFirstStamp(s: seq<int>)
  {
    forall i, j :: 0 <= i < j < |s| && s[i] >= 0 ==> s[i] <= s[j]
  }

  /** Timestamps never run backwards: none falls below a non-negative last
      value, and after the first non-negative timestamp the sequence is
      non-decreasing. */
  lemma {:induction false} RunMonotone(t: TimeSource, cs: seq<Call>)
    ensures t.last >= 0 ==> AllAtLeast(Run(t, cs).stamps, t.last)
    ensures NonDecreasingFromFirstStamp(Run(t, cs).stamps)
    ensures t.last >= 0 ==> Run(t, cs).source.last >= t.last
    decreases |cs|
  {
    if cs != [] {
      match cs[0]
      case ApplyEpochCall(e, u) =>
        RunMonotone(ApplyEpoch(t, e, u), cs[1..]);
      case GetCall(u) =>
        var r := GetTimestamp(t, u);
        RunMonotone(r.source, cs[1..]);
        var rest := Run(r.source, cs[1..]).stamps;
        var s := Run(t, cs).stamps;
        assert s == [r.ts] + rest;
        forall i, j | 0 <= i < j < |s| && s[i] >= 0
          ensures s[i] <= s[j]
        {
          assert s[j] == rest[j - 1];
          if i > 0 {
            assert s[i] == rest[i - 1];
          }
        }
        if t.last >= 0 {
          forall k | 0 <= k < |s|
            ensures s[k] >= t.last
          {
            if k > 0 {
              assert s[k] == rest[k - 1];
            }
          }
        }
    }
  }

  /** The anomaly flag is sticky and sync is never lost; only `Init`
      resets them. */
  lemma {:induction false} RunKeepsAnomalyAndSync(t: TimeSource, cs: seq<Call>)
    ensures t.anomaly ==> Run(t, cs).source.anomaly
    ensures t.synced ==> Run(t, cs).source.synced
    decreases |cs|
  {
    if cs != [] {
      match cs[0]
      case ApplyEpochCall(e, u) => RunKeepsAnomalyAndSync(ApplyEpoch(t, e, u), cs[1..]);
      case GetCall(u) => RunKeepsAnomalyAndSync(GetTimestamp(t, u).source, cs[1..]);
    }
  }

  /** Before any epoch the source hands out uptime, as long as uptime does
      not run backwards. */
  lemma UnsyncedIsUptime(t: TimeSource, uptime: int)
    requires !t.synced && (t.last < 0 || uptime >= t.last)
    ensures GetTimestamp(t, uptime).ts == uptime
    ensures GetTimestamp(t, uptime).source.anomaly == t.anomaly
  {
  }

  /** An accepted epoch is read back exactly, shifted by elapsed uptime. */
  lemma EpochReadBack(t: TimeSource, epoch: int, u0: int, u: int)
    requires !Behind(t, epoch) && epoch + (u - u0) >= t.last
    ensures GetTimestamp(ApplyEpoch(t, epoch, u0), u).ts == epoch + (u - u0)
  {
  }

  /** The host test: uptime 1000 before sync; a backward epoch (500 at
      uptime 1000) is rebased, so 1100 and 1200 follow, with the anomaly
      recorded. */
  lemma BackwardEpochScenario()
    ensures var r1 := GetTimestamp(Init(), 1000);
            var t2 := ApplyEpoch(r1.source, 500, 1000);
            var r3 := GetTimestamp(t2, 1100);
            var r4 := GetTimestamp(r3.source, 1200);
            && r1.ts == 1000 && !r1.source.anomaly
            && r3.ts == 1100 && r3.source.anomaly
            && r4.ts == 1200
  {
  }
}
