/** The maximum of one packet, as a worker computes it (app/src/core/worker_pool.go). */
module MaxMeasurement {
  import opened Domain

  /** m replaces best: greater value, or the same value and a later timestamp. */
  predicate Better(m: Measurement, best: Measurement) {
    m.value > best.value || (m.value == best.value && m.ts > best.ts)
  }

  function Pick(best: Option<Measurement>, m: Measurement): Option<Measurement> {
    if best.None? || Better(m, best.value) then Some(m) else best
  }

  /** The running maximum after all of ms. */
  function MaxOf(ms: seq<Measurement>): Option<Measurement> {
    if ms == [] then None else Pick(MaxOf(ms[..|ms| - 1]), ms[|ms| - 1])
  }

  /** ms[k] is the earliest of the greatest elements: no value is greater, of equal values no timestamp
      is later, and of equal pairs none comes before. */
  predicate EarliestGreatest(ms: seq<Measurement>, k: int) {
    && 0 <= k < |ms|
    && (forall j :: 0 <= j < |ms| ==>
          ms[j].value < ms[k].value || (ms[j].value == ms[k].value && ms[j].ts <= ms[k].ts))
    && (forall j :: 0 <= j < k ==>
          ms[j].value < ms[k].value || (ms[j].value == ms[k].value && ms[j].ts < ms[k].ts))
  }

  /** w is, field by field, the record of m. */
  predicate IsRecordOf(w: PacketMax, m: Measurement) {
    w.packetId == m.packetId && w.sourceId == m.sourceId && w.value == m.value && w.ts == m.ts
  }

  /** w is the record of the packet's earliest greatest measurement. */
  predicate IsMaximumOf(w: PacketMax, p: DataPacket) {
    exists k :: 0 <= k < |p.measurements| && EarliestGreatest(p.measurements, k) && IsRecordOf(w, p.measurements[k])
  }

  /** There is only one such record, and it is what a worker makes of the running maximum. */
  lemma MaximumRecordIsUnique(w: PacketMax, p: DataPacket)
    ensures IsMaximumOf(w, p) <==> MaxOf(p.measurements).Some? && w == ToPacketMax(MaxOf(p.measurements).value)
  {
    if p.measurements != [] {
      var k := MaximumRecord(p);
    }
  }

  /** What a worker makes of the running maximum is the record of the greatest measurement. */
  lemma MaximumRecord(p: DataPacket) returns (k: int)
    requires p.measurements != []
    ensures MaxOf(p.measurements).Some?
    ensures EarliestGreatest(p.measurements, k)
    ensures IsRecordOf(ToPacketMax(MaxOf(p.measurements).value), p.measurements[k])
  {
    k := MaxOfIsEarliestGreatest(p.measurements);
  }

  /** MaxOf finds nothing in an empty packet only, and otherwise the earliest greatest element. */
  lemma {:induction false} MaxOfIsEarliestGreatest(ms: seq<Measurement>) returns (k: int)
    ensures MaxOf(ms).None? <==> ms == []
    ensures ms != [] ==> EarliestGreatest(ms, k) && MaxOf(ms) == Some(ms[k])
  {
    k := 0;
    if ms != [] {
      var front := ms[..|ms| - 1];
      k := MaxOfIsEarliestGreatest(front);
      if front == [] || Better(ms[|ms| - 1], front[k]) {
        k := |ms| - 1;
      }
    }
  }

  /** There is one earliest greatest element, so the specification determines the result. */
  lemma EarliestGreatestDetermines(ms: seq<Measurement>, m: Measurement)
    ensures MaxOf(ms) == Some(m) <==> exists k :: EarliestGreatest(ms, k) && ms[k] == m
  {
    var k := MaxOfIsEarliestGreatest(ms);
    if j :| EarliestGreatest(ms, j) && ms[j] == m {
      assert j == k;
    }
  }

  /** Left-biased combination of the maxima of two parts. */
  function Combine(a: Option<Measurement>, b: Option<Measurement>): Option<Measurement> {
    if b.None? then a else Pick(a, b.value)
  }

  /** Splitting a packet anywhere and combining the parts' maxima gives the packet's maximum. */
  lemma {:induction false} MaxOfIsHomomorphism(a: seq<Measurement>, b: seq<Measurement>)
    ensures MaxOf(a + b) == Combine(MaxOf(a), MaxOf(b))
  {
    if b == [] {
      assert a + b == a;
    } else {
      var front := b[..|b| - 1];
      assert (a + b)[..|a + b| - 1] == a + front;
      MaxOfIsHomomorphism(a, front);
    }
  }

  /** findMaxMeasurement: ctx.Err() is read before each element; it first reports an error at
      iteration cancelledAt. A cancellation seen during the scan loses the packet's maximum. */
  method FindMaxMeasurement(ms: seq<Measurement>, cancelledAt: nat) returns (best: Option<Measurement>)
    ensures best == if cancelledAt < |ms| then None else MaxOf(ms)
    ensures best.None? <==> ms == [] || cancelledAt < |ms|
    ensures best.Some? ==> exists k :: EarliestGreatest(ms, k) && best.value == ms[k]
  {
    best := None;
    for i := 0 to |ms|
      invariant i <= cancelledAt
      invariant best == MaxOf(ms[..i])
    {
      if i >= cancelledAt {
        return None;
      }
      if best.None? || ms[i].value > best.value.value
         || (ms[i].value == best.value.value && ms[i].ts > best.value.ts) {
        best := Some(ms[i]);
      }
      assert ms[..i + 1][..i] == ms[..i];
    }
    assert ms[..|ms|] == ms;
    var k := MaxOfIsEarliestGreatest(ms);
  }

  /** processPacket up to Add: the item that Add is called with, if it is called. */
  method ProcessPacket(p: DataPacket, cancelledAt: nat) returns (item: Option<PacketMax>)
    ensures item.Some? <==> p.measurements != [] && cancelledAt >= |p.measurements|
    ensures item.Some? ==> IsMaximumOf(item.value, p)
  {
    if p.measurements == [] {
      return None;
    }
    var best := FindMaxMeasurement(p.measurements, cancelledAt);
    if best.None? {
      return None;
    }
    var k := MaximumRecord(p);
    item := Some(ToPacketMax(best.value));
  }
}
