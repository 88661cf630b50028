/** The MQTT row of a capacity frame: what one row may claim, and what successive
    rows of one runtime instance may change (analyze_capacity.py). */
module CapacityMqtt {

  const METADATA_BYTES: nat := 272
  const COPY_BYTES: nat := 80

  /** What the owner held at the largest partial message seen so far. */
  datatype Peak = Peak(
    uptime: nat, observedUntil: nat, complete: nat, payload: nat, declared: nat, received: nat,
    request: nat, wire: nat)

  const NO_PEAK := Peak(0, 0, 0, 0, 0, 0, 0, 0)

  datatype Row = Row(
    available: bool, instance: nat, peakValid: bool, peak: Peak, metadata: nat,
    fullCount: nat, fullPayload: nat, fullUptime: nat, noticeHigh: nat, noticeFull: nat,
    countersValid: bool, storage: nat, copy: nat)

  /** The values a row without an instance must have. */
  const NO_INSTANCE := Row(false, 0, false, NO_PEAK, 0, 0, 0, 0, 0, 0, false, 0, COPY_BYTES)

  predicate PeakOk(p: Peak, metadata: nat, uptime: nat) {
    && p.complete <= 3 && p.payload <= p.complete * 4096
    && 1 <= p.declared <= 4096 && p.received < p.declared
    && p.uptime <= p.observedUntil <= uptime
    && p.request == p.payload + p.declared + (p.complete + 1) * metadata
  }

  /** _check_mqtt() for a frame that began at `uptime`. */
  predicate RowOk(r: Row, uptime: nat) {
    && r.copy == COPY_BYTES
    && if !r.available then r == NO_INSTANCE
       else
         && r.instance != 0 && r.metadata == METADATA_BYTES && r.storage >= r.copy + 4 && r.noticeHigh <= 16
         && (if r.peakValid then PeakOk(r.peak, r.metadata, uptime) else r.peak == NO_PEAK)
         && (if r.fullCount == 0 then r.fullPayload == 0 && r.fullUptime == 0
             else r.fullPayload <= 1023 && r.fullUptime <= uptime)
  }

  /** Peaks are ranked by what they cost, then by the outbox beside them. */
  predicate RankLe(p: Peak, q: Peak) {
    p.request < q.request || (p.request == q.request && p.wire <= q.wire)
  }

  predicate SameRank(p: Peak, q: Peak) {
    p.request == q.request && p.wire == q.wire
  }

  /** Two rows of one runtime instance. */
  predicate SameInstance(a: Row, b: Row) {
    && b.metadata == a.metadata && b.storage == a.storage && b.copy == a.copy
    && b.fullCount >= a.fullCount && b.noticeHigh >= a.noticeHigh && b.noticeFull >= a.noticeFull
    && (b.countersValid ==> a.countersValid)
    && (a.peakValid ==>
          && b.peakValid && RankLe(a.peak, b.peak) && b.peak.uptime >= a.peak.uptime
          && (SameRank(a.peak, b.peak) ==> b.peak == a.peak))
    && (b.fullCount == a.fullCount ==> b.fullPayload == a.fullPayload && b.fullUptime == a.fullUptime)
    && b.fullUptime >= a.fullUptime
  }

  /** _check_mqtt_history(). */
  predicate Follows(a: Row, b: Row) {
    b.instance >= a.instance && (b.instance == a.instance ==> SameInstance(a, b))
  }

  /** Comparing neighbours compares any two rows. */
  lemma FollowsTrans(a: Row, b: Row, c: Row)
    requires Follows(a, b) && Follows(b, c)
    ensures Follows(a, c)
  {
  }
}
