/** The packet generator (app/src/core/generator.go). */
module Generator {
  import opened Domain
  import Uuid

  /** What one packet takes from outside: random bytes, random numbers and the clock. */
  datatype Draw = Draw(id: seq<Uuid.byte>, sources: seq<seq<Uuid.byte>>, values: seq<int>, now: int)

  /** A draw for a packet of `size` measurements; Int63n(1000) is below 1000. */
  predicate ValidDraw(size: nat, d: Draw) {
    && |d.id| == 16
    && |d.sources| == |d.values| == size
    && (forall i :: 0 <= i < size ==> |d.sources[i]| == 16)
    && (forall i :: 0 <= i < size ==> 0 <= d.values[i] < 1000)
  }

  /** NewGenerator makes packets of at least one measurement. */
  function NormalSize(packetSize: int): (n: nat)
    ensures packetSize >= 1 ==> n == packetSize
    ensures packetSize < 1 ==> n == 1
  {
    if packetSize <= 0 then 1 else packetSize
  }

  function MakePacket(size: nat, d: Draw): (p: DataPacket)
    requires ValidDraw(size, d)
    ensures |p.measurements| == size
    ensures forall m :: m in p.measurements ==> m.packetId == p.id && m.ts == d.now
  {
    var id := Uuid.Generated(d.id);
    DataPacket(id, seq(size, i requires 0 <= i < size =>
      Measurement(id, Uuid.Generated(d.sources[i]), d.values[i] as real, d.now)))
  }

  /** generatePacket: a slice of the packet's size, filled in place. */
  method GeneratePacket(size: nat, d: Draw) returns (p: DataPacket)
    requires ValidDraw(size, d)
    ensures p == MakePacket(size, d)
    ensures |p.measurements| == size && p.id == Uuid.Generated(d.id)
    ensures forall i :: 0 <= i < size ==>
      && p.measurements[i].packetId == p.id && p.measurements[i].sourceId == Uuid.Generated(d.sources[i])
      && p.measurements[i].value == d.values[i] as real && p.measurements[i].ts == d.now
  {
    var id := Uuid.Generated(d.id);
    var measurements := new Measurement[size](_ => Measurement("", "", 0.0, 0));
    for i := 0 to size
      invariant measurements[..i] == MakePacket(size, d).measurements[..i]
    {
      measurements[i] := Measurement(id, Uuid.Generated(d.sources[i]), d.values[i] as real, d.now);
      assert measurements[..i + 1] == measurements[..i] + [measurements[i]];
    }
    p := DataPacket(id, measurements[..]);
    assert measurements[..] == measurements[..size];
  }

  /** The identifiers of a generated packet are valid, and in the form the database prints. */
  lemma GeneratedIdsAreValid(size: nat, d: Draw, m: Measurement)
    requires ValidDraw(size, d) && m in MakePacket(size, d).measurements
    ensures Uuid.ParseUuid(m.packetId) == Ok(m.packetId) && Uuid.ToLower(m.packetId) == m.packetId
    ensures Uuid.ParseUuid(m.sourceId) == Ok(m.sourceId) && Uuid.ToLower(m.sourceId) == m.sourceId
    ensures 0.0 <= m.value < 1000.0 && m.value == m.value.Floor as real
  {
    var i :| 0 <= i < size && MakePacket(size, d).measurements[i] == m;
    Uuid.GeneratedIsAccepted(d.id);
    Uuid.GeneratedIsAccepted(d.sources[i]);
  }
}
