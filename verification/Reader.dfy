/** Reading packet_max back by packet id (app/src/database/postgres.go). */
module Reader {
  import opened Domain
  import opened PacketTable
  import opened Codec
  import Text
  import Uuid
  import B = Batcher

  datatype ReadError = InvalidId | QueryFailed(error: DbError) | Malformed(reason: string) | NotFound

  /** PacketMaxByID, given what the runner answered to the query. */
  function PacketMaxById(c: Columns, id: string, reply: Result<string, DbError>): Result<PacketMax, ReadError> {
    if Uuid.ParseUuid(id).Err? then Err(InvalidId)
    else if reply.Err? then Err(QueryFailed(reply.error))
    else
      match PacketMaxListOf(c, reply.value)
      case Err(reason) => Err(Malformed(reason))
      case Ok(rows) => if rows == [] then Err(NotFound) else Ok(rows[0])
  }

  function RowAt(t: Table, k: Key): PacketMax
    requires k in t
  {
    PacketMax(k.0, k.1, t[k].value, t[k].ts)
  }

  /** The lookup rejects an identifier that is not of the 8-4-4-4-12 form, reports a failed query and a
      result that does not parse, and otherwise answers with the first row, or not-found without one. */
  lemma LookupOutcomes(c: Columns, id: string, reply: Result<string, DbError>)
    ensures PacketMaxById(c, id, reply) == Err(InvalidId) <==> !Uuid.HexForm(id)
    ensures Uuid.HexForm(id) && reply.Err? ==> PacketMaxById(c, id, reply) == Err(QueryFailed(reply.error))
    ensures Uuid.HexForm(id) && reply.Ok? && PacketMaxListOf(c, reply.value).Err? ==>
      PacketMaxById(c, id, reply) == Err(Malformed(PacketMaxListOf(c, reply.value).error))
    ensures Uuid.HexForm(id) && reply.Ok? && PacketMaxListOf(c, reply.value).Ok? ==>
      var rows := PacketMaxListOf(c, reply.value).value;
      PacketMaxById(c, id, reply) == if |rows| == 0 then Err(NotFound) else Ok(rows[0])
  {
    Uuid.ParseAcceptsHexFormOnly(id);
    hide Uuid.ParseUuid, PacketMaxListOf;
  }

  /** What SELECT ... WHERE packet_id = id LIMIT 1 may return: any one row of the packet. */
  predicate LimitOne(t: Table, id: string, rows: seq<PacketMax>) {
    if rows == [] then forall k :: k in t ==> k.0 != PacketKey(id)
    else |rows| == 1 && exists k :: k in t && k.0 == PacketKey(id) && rows[0] == RowAt(t, k)
  }

  /** Identifiers need no quotes in CSV. */
  lemma UuidIsPlain(s: string)
    requires Uuid.HexForm(s)
    ensures Plain(s)
  {
    forall i | 0 <= i < 36
      ensures !Text.IsSpace(s[i]) && s[i] != ',' && s[i] != '"' && s[i] != '\n' && s[i] != '\r'
    {
      assert Uuid.FormAt(s, i);
    }
  }

  /** Every stored key is a pair of identifiers in the form the database prints. */
  predicate StoredIds(t: Table) {
    forall k :: k in t ==> Uuid.HexForm(k.0) && Uuid.HexForm(k.1)
  }

  /** Whatever row the query picks, the reader returns that row, and not-found when there is none:
      by itself this says nothing about the maximum. */
  lemma LookupReturnsSelected(c: Columns, t: Table, id: string, rows: seq<PacketMax>)
    requires StoredIds(t)
    requires forall k :: k in t ==> ReadsBack(c.value, t[k].value) && ReadsBack(c.ts, t[k].ts)
    requires Uuid.ParseUuid(id).Ok? && LimitOne(t, id, rows)
    ensures PacketMaxById(c, id, Ok(Terminated(Lines(c, rows)))) == if rows == [] then Err(NotFound) else Ok(rows[0])
  {
    forall i | 0 <= i < |rows| ensures PlainRow(c, rows[i]) {
      UuidIsPlain(rows[i].packetId);
      UuidIsPlain(rows[i].sourceId);
    }
    CsvRoundTrip(c, rows);
  }

  predicate OfPacket(w: PacketMax, id: string) { PacketKey(w.packetId) == PacketKey(id) }

  /** Whatever row LIMIT 1 picks, its value is the greatest that was written for the packet. */
  ghost predicate AlwaysMaximum(ws: seq<PacketMax>, id: string) {
    forall rows: seq<PacketMax>, w :: LimitOne(WriteAll(map[], ws), id, rows) && w in ws && OfPacket(w, id) ==>
      rows != [] && rows[0].value >= w.value
  }

  /** Some write of v's source to its packet is as great as w. */
  predicate Matched(ws: seq<PacketMax>, v: PacketMax, w: PacketMax) {
    exists u :: u in ws && KeyOf(u) == KeyOf(v) && u.value >= w.value
  }

  /** LIMIT 1 without an order returns the maximum of what was written for a packet, whatever row is
      picked, exactly when each source that wrote for the packet wrote as great a value as any. */
  lemma LookupIsMaximumIffSourcesMatch(ws: seq<PacketMax>, id: string)
    ensures AlwaysMaximum(ws, id)
       <==> forall v, w :: v in ws && w in ws && OfPacket(v, id) && OfPacket(w, id) ==> Matched(ws, v, w)
  {
    var t := WriteAll(map[], ws);
    hide WriteAll, PacketKey;
    if AlwaysMaximum(ws, id) {
      forall v, w | v in ws && w in ws && OfPacket(v, id) && OfPacket(w, id) ensures Matched(ws, v, w) {
        KeyHolds(ws, v);
        assert LimitOne(t, id, [RowAt(t, KeyOf(v))]);
      }
    }
    if forall v, w :: v in ws && w in ws && OfPacket(v, id) && OfPacket(w, id) ==> Matched(ws, v, w) {
      forall rows: seq<PacketMax>, w | LimitOne(t, id, rows) && w in ws && OfPacket(w, id)
        ensures rows != [] && rows[0].value >= w.value
      {
        KeyHolds(ws, w);
        if rows != [] {
          var k :| k in t && k.0 == PacketKey(id) && rows[0] == RowAt(t, k);
          var v := WriterOf(ws, k);
          KeyHolds(ws, v);
          assert Matched(ws, v, w);
        }
      }
    }
  }

  /** The key of a write holds the greatest value written to it. */
  lemma KeyHolds(ws: seq<PacketMax>, v: PacketMax)
    requires v in ws
    ensures KeyOf(v) in WriteAll(map[], ws)
    ensures forall u :: u in ws && KeyOf(u) == KeyOf(v) ==> WriteAll(map[], ws)[KeyOf(v)].value >= u.value
    ensures exists u :: u in ws && KeyOf(u) == KeyOf(v) && u.value == WriteAll(map[], ws)[KeyOf(v)].value
  {
    ClosedFormAt(map[], ws, KeyOf(v));
    hide WriteAll, PacketKey;
    assert v in For(ws, KeyOf(v));
  }

  lemma WriterOf(ws: seq<PacketMax>, k: Key) returns (v: PacketMax)
    requires k in WriteAll(map[], ws)
    ensures v in ws && KeyOf(v) == k
  {
    UpsertClosedForm(map[], ws);
    v :| v in ws && KeyOf(v) == k;
  }

  /** Two items that Add accepts, of one packet and two sources, after which LIMIT 1 may return the
      smaller one. */
  lemma LookupCanMissMaximum() returns (v: PacketMax, w: PacketMax)
    ensures B.ValidatePacketMax(v).Ok? && B.ValidatePacketMax(w).Ok?
    ensures v.packetId == w.packetId && v.value < w.value
    ensures LimitOne(WriteAll(map[], [v, w]), v.packetId, [v])
  {
    var one, other := seq(16, _ => 0), seq(16, _ => 1);
    Uuid.GeneratedIsAccepted(one);
    Uuid.GeneratedIsAccepted(other);
    Uuid.GeneratedInjectiveOnFreeBits(one, other);
    assert one[0] != other[0];
    hide Uuid.Generated, Uuid.ParseUuid;
    Uuid.EmptyIsNoUuid();
    v := PacketMax(Uuid.Generated(one), Uuid.Generated(one), 0.0, 0);
    w := PacketMax(Uuid.Generated(one), Uuid.Generated(other), 1.0, 0);
    WriteAllTwo(v, w);
    var t := WriteAll(map[], [v, w]);
    assert KeyOf(v) in t && v == RowAt(t, KeyOf(v));
  }

  lemma WriteAllTwo(v: PacketMax, w: PacketMax)
    requires KeyOf(v) != KeyOf(w)
    ensures WriteAll(map[], [v, w])
         == map[KeyOf(v) := Row(v.value, v.ts), KeyOf(w) := Row(w.value, w.ts)]
  {
    WriteAllSnoc(map[], [v], w);
    WriteAllSnoc(map[], [], v);
    assert [v] + [w] == [v, w] && [] + [v] == [v];
  }
}
