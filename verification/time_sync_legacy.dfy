/** The end-device's older timestamp helper (`sidewalk_end_device`'s
    `time_sync.c`): an epoch offset with no clamping and no anomaly
    tracking. */
module TimeSyncLegacy {

  datatype Clock = Clock(offset: int, synced: bool)

  /** `time_sync_init`. */
  function Init(): (c: Clock)
    ensures c.offset == 0 && !c.synced
  {
    Clock(0, false)
  }

  /** `time_sync_apply_epoch_ms`: the offset is replaced unconditionally. */
  function Apply(c: Clock, epoch: int, uptime: int): (c': Clock)
    ensures c'.synced
    ensures c'.offset + uptime == epoch
  {
    Clock(epoch - uptime, true)
  }

  /** `time_sync_get_timestamp_ms`. */
  function Get(c: Clock, uptime: int): (ts: int)
    ensures !c.synced ==> ts == uptime
    ensures c.synced ==> ts - uptime == c.offset
  {
    if c.synced then c.offset + uptime else uptime
  }

  /** `time_sync_is_synced`. */
  function IsSynced(c: Clock): bool
  {
    c.synced
  }

  datatype Call = ApplyCall(epoch: int, uptime: int) | GetCall(uptime: int)

  /** Only `Apply` changes the clock; `Get` reads it. */
  function Run(c: Clock, cs: seq<Call>): Clock
    decreases |cs|
  {
    if cs == [] then c
    else match cs[0]
      case ApplyCall(e, u) => Run(Apply(c, e, u), cs[1..])
      case GetCall(_) => Run(c, cs[1..])
  }

  predicate HasApply(cs: seq<Call>)
  {
    exists k :: 0 <= k < |cs| && cs[k].ApplyCall?
  }

  /** After init, the clock is synced exactly when some epoch was applied. */
  lemma {:induction false} SyncedIffApplied(cs: seq<Call>, c: Clock)
    requires c == Init() || c.synced
    ensures IsSynced(Run(c, cs)) <==> c.synced || HasApply(cs)
    decreases |cs|
  {
    if cs != [] {
      match cs[0]
      case ApplyCall(e, u) =>
        SyncedIffApplied(cs[1..], Apply(c, e, u));
        assert cs[0].ApplyCall?;
      case GetCall(_) =>
        SyncedIffApplied(cs[1..], c);
        if HasApply(cs) {
          var k :| 0 <= k < |cs| && cs[k].ApplyCall?;
          assert cs[1..][k - 1] == cs[k];
        }
        if HasApply(cs[1..]) {
          var k :| 0 <= k < |cs[1..]| && cs[1..][k].ApplyCall?;
          assert cs[k + 1] == cs[1..][k];
        }
    }
  }

  /** The last applied epoch is read back exactly at its uptime, shifted by
      elapsed uptime afterwards. */
  lemma ReadBack(c: Clock, epoch: int, u0: int, u: int)
    ensures Get(Apply(c, epoch, u0), u) == epoch - u0 + u
    ensures Get(Apply(c, epoch, u0), u0) == epoch
  {
  }

  /** No clamping: the backward epoch of the interlock's host test makes
      this helper run backwards, where the interlock clamps. */
  lemma RunsBackward()
    ensures var c := Apply(Init(), 500, 1000);
            Get(Init(), 1000) == 1000 && Get(c, 1100) == 600
  {
  }
}
