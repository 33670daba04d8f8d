/** The records that flow through the service (app/src/domain). */
module Domain {

  datatype Option<+T> = None | Some(value: T)

  datatype Result<+T, +E> = Ok(value: T) | Err(error: E)

  /** Timestamps are nanoseconds since the epoch; values are exact reals. */
  datatype Measurement = Measurement(packetId: string, sourceId: string, value: real, ts: int)

  datatype DataPacket = DataPacket(id: string, measurements: seq<Measurement>)

  datatype PacketMax = PacketMax(packetId: string, sourceId: string, value: real, ts: int)

  /** The record a worker stores for the measurement it picked. */
  function ToPacketMax(m: Measurement): PacketMax {
    PacketMax(m.packetId, m.sourceId, m.value, m.ts)
  }

  /** A number above every one of a finite set: a fresh identifier. */
  lemma Above(s: set<nat>) returns (k: nat)
    ensures forall x :: x in s ==> x < k
  {
    if s == {} {
      k := 0;
    } else {
      var x :| x in s;
      k := Above(s - {x});
      assert forall y :: y in s ==> y == x || y in s - {x};
      if k <= x {
        k := x + 1;
      }
    }
  }
}
