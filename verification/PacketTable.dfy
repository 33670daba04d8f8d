/** The packet_max table, the three statements that change it, and the write path that combines
    them (app/src/database/postgres.go, app/resources/db/migrations/0001_init.sql). */
module PacketTable {
  import opened Domain
  import opened Text
  import Uuid
  import Codec

  /** (packet_id, source_id); the uuid columns do not distinguish letter case. */
  type Key = (string, string)

  datatype Row = Row(value: real, ts: int)

  /** The primary key makes the table a map. */
  type Table = map<Key, Row>

  function PacketKey(id: string): string { Uuid.ToLower(id) }

  function KeyOf(w: PacketMax): Key { (PacketKey(w.packetId), PacketKey(w.sourceId)) }

  function Greatest(a: real, b: real): real { if a >= b then a else b }

  // ---------------------------------------------------------------- the statements

  datatype Statement = InsertRow | UpdatePair | UpdatePacket

  datatype Effect = Done(table: Table, affected: nat) | Violation

  /** The rows of w's packet that hold a smaller value. */
  function Lower(t: Table, w: PacketMax): set<Key> {
    set a | a in t && a.0 == KeyOf(w).0 && t[a].value < w.value
  }

  /** UPDATE ... WHERE packet_id = $1. Every row with a smaller value takes the new source, so
      two rows that end under w's key violate the primary key. */
  function UpdateByPacket(t: Table, w: PacketMax): Effect {
    var k := KeyOf(w);
    var lower := Lower(t, w);
    if |Ending(t, w)| > 1 then Violation
    else
      var kept := map a | a in t && a !in lower :: if a.0 == k.0 then Row(t[a].value, w.ts) else t[a];
      Done(if lower == {} then kept else kept[k := Row(w.value, w.ts)], |set a | a in t && a.0 == k.0|)
  }

  function Execute(s: Statement, t: Table, w: PacketMax): Effect {
    var k := KeyOf(w);
    match s
    case InsertRow => if k in t then Violation else Done(t[k := Row(w.value, w.ts)], 1)
    case UpdatePair =>
      if k in t then Done(t[k := Row(Greatest(t[k].value, w.value), w.ts)], 1) else Done(t, 0)
    case UpdatePacket => UpdateByPacket(t, w)
  }

  /** Where the update by packet puts the row of key a. */
  function NewKey(t: Table, w: PacketMax, a: Key): Key
    requires a in t
  {
    if a.0 == KeyOf(w).0 && w.value > t[a].value then (a.0, KeyOf(w).1) else a
  }

  function NewRow(t: Table, w: PacketMax, a: Key): Row
    requires a in t
  {
    if a.0 == KeyOf(w).0 then Row(Greatest(t[a].value, w.value), w.ts) else t[a]
  }

  lemma SetOfTwo<T>(s: set<T>, a: T, b: T)
    requires a in s && b in s && a != b
    ensures |s| > 1
  {
    assert {a, b} <= s;
    assert s == {a, b} + (s - {a, b});
    assert |{a, b}| == 2;
  }

  lemma SetAboveOne<T>(s: set<T>) returns (a: T, b: T)
    requires |s| > 1
    ensures a in s && b in s && a != b
  {
    a :| a in s;
    assert |s - {a}| == |s| - 1;
    b :| b in s - {a};
  }

  /** Two rows of w's packet would get the key of w: each holds a smaller value, or has it already. */
  predicate Collide(t: Table, w: PacketMax, a: Key, b: Key) {
    && a in t && b in t && a != b && a.0 == b.0 == KeyOf(w).0
    && (t[a].value < w.value || a == KeyOf(w)) && (t[b].value < w.value || b == KeyOf(w))
  }

  /** The rows that end under w's key. */
  function Ending(t: Table, w: PacketMax): (r: set<Key>)
    ensures forall a :: a in r <==> a in t && NewKey(t, w, a) == KeyOf(w)
  {
    Lower(t, w) + (if KeyOf(w) in t then {KeyOf(w)} else {})
  }

  lemma CollisionIsEnding(t: Table, w: PacketMax)
    ensures |Ending(t, w)| > 1 <==> exists a, b :: Collide(t, w, a, b)
  {
    if |Ending(t, w)| > 1 {
      var a, b := SetAboveOne(Ending(t, w));
      assert Collide(t, w, a, b);
    }
    if a, b :| Collide(t, w, a, b) {
      SetOfTwo(Ending(t, w), a, b);
    }
  }

  /** What the statement leaves of row a: a row of another packet stays; a row of w's packet with a
      smaller value takes w's source and value; any other keeps both; each takes w's timestamp. */
  predicate RowUpdated(t: Table, w: PacketMax, a: Key, u: Table) {
    a in t ==>
      if a.0 != KeyOf(w).0 then a in u && u[a] == t[a]
      else if t[a].value < w.value then KeyOf(w) in u && u[KeyOf(w)] == Row(w.value, w.ts)
      else a in u && u[a] == Row(t[a].value, w.ts)
  }

  /** The update by packet is the statement applied row by row: it fails exactly when two rows
      would get one key; otherwise each row is updated, the new table holds nothing else, and all rows
      of the packet count as affected. */
  lemma UpdateByPacketRowByRow(t: Table, w: PacketMax)
    ensures UpdateByPacket(t, w).Violation? <==> exists a, b :: Collide(t, w, a, b)
    ensures UpdateByPacket(t, w).Done? ==> forall a :: RowUpdated(t, w, a, UpdateByPacket(t, w).table)
    ensures UpdateByPacket(t, w).Done? ==> forall k :: k in UpdateByPacket(t, w).table ==>
      exists a :: a in t && NewKey(t, w, a) == k
    ensures UpdateByPacket(t, w).Done? ==>
      UpdateByPacket(t, w).affected == |set a | a in t && a.0 == KeyOf(w).0|
  {
    hide PacketKey;
    CollisionIsEnding(t, w);
    if UpdateByPacket(t, w).Done? {
      var u := UpdateByPacket(t, w).table;
      forall a | a in t ensures RowUpdated(t, w, a, u) {
        if a == KeyOf(w) && a !in Lower(t, w) {
          forall l | l in Lower(t, w) ensures false {
            SetOfTwo(Ending(t, w), a, l);
          }
        }
      }
      forall k | k in u ensures exists a :: a in t && NewKey(t, w, a) == k {
        if k in t && k !in Lower(t, w) {
          assert NewKey(t, w, k) == k;
        } else {
          var l :| l in Lower(t, w);
          assert NewKey(t, w, l) == k;
        }
      }
    }
  }

  // ---------------------------------------------------------------- the runner

  /** An error of the runner: its SQLSTATE, when the driver gives one, and its message. */
  datatype DbError = DbError(sqlState: Option<string>, message: string)

  predicate HasAt(s: string, part: string, i: int) {
    0 <= i <= |s| - |part| && s[i..i + |part|] == part
  }

  predicate Contains(s: string, part: string) {
    exists i :: 0 <= i <= |s| && HasAt(s, part, i)
  }

  predicate IsUniqueViolation(e: DbError) {
    if e.sqlState.Some? then e.sqlState.value == "23505"
    else
      var message := Uuid.ToLower(e.message);
      Contains(message, "duplicate key value") || Contains(message, "unique constraint")
  }

  const UNIQUE_VIOLATION := DbError(Some("23505"), "duplicate key value violates unique constraint")

  /** How one statement may go wrong besides a key violation: the error is reported before the
      statement ran, or after it took effect. */
  datatype Fault = NoFault | Before(error: DbError) | After(error: DbError)

  function Word(s: Statement): string {
    if s.InsertRow? then "INSERT" else "UPDATE"
  }

  /** How the text of a statement starts. */
  function Head(s: Statement): string {
    Word(s) + (if s.InsertRow? then " INTO" else " public.packet_max")
  }

  lemma WordShape(s: Statement)
    ensures Word(s) != "" && NoSpace(Word(s)) && ToUpper(Word(s)) == Word(s)
  { }

  lemma HeadVerb(s: Statement)
    ensures TrimSpace(Head(s)) != ""
    ensures Codec.Verb(Head(s)) == Word(s)
  {
    WordShape(s);
    var rest := if s.InsertRow? then " INTO" else " public.packet_max";
    assert IsSpace(rest[0]);
    Codec.VerbOfStatement(Word(s), rest);
  }

  /** The command tag the runner prints for a statement that affected n rows. */
  function TagOf(s: Statement, n: nat): string {
    HeadVerb(s);
    Codec.CommandTag(Head(s), n)
  }

  lemma TagReports(s: Statement, n: nat)
    ensures Codec.ParseRowsAffected(TagOf(s, n)) == Ok(n) <==> n < INT64_LIMIT
    ensures n >= INT64_LIMIT ==> Codec.ParseRowsAffected(TagOf(s, n)).Err?
  {
    HeadVerb(s);
    Codec.TagRoundTrip(Head(s), n);
  }

  function Reply(s: Statement, t: Table, w: PacketMax, fault: Fault): Result<string, DbError> {
    match fault
    case Before(e) => Err(e)
    case After(e) => Err(e)
    case NoFault =>
      match Execute(s, t, w)
      case Violation => Err(UNIQUE_VIOLATION)
      case Done(_, n) => Ok(TagOf(s, n))
  }

  function TableAfter(s: Statement, t: Table, w: PacketMax, fault: Fault): Table {
    if fault.Before? || Execute(s, t, w).Violation? then t else Execute(s, t, w).table
  }

  /** The number of rows a statement reports, or why there is none. */
  datatype Count = Rows(n: int) | Failed(error: DbError) | Unparsed

  function Counted(s: Statement, t: Table, w: PacketMax, fault: Fault): Count {
    if !fault.NoFault? then Failed(fault.error)
    else
      match Execute(s, t, w)
      case Violation => Failed(UNIQUE_VIOLATION)
      case Done(_, n) => if n < INT64_LIMIT then Rows(n) else Unparsed
  }

  class Database {
    var rows: Table
    var executed: seq<Statement>

    constructor (rows: Table)
      ensures this.rows == rows && executed == []
    {
      this.rows := rows;
      executed := [];
    }

    method Exec(s: Statement, w: PacketMax, fault: Fault) returns (r: Result<string, DbError>)
      modifies this
      ensures r == Reply(s, old(rows), w, fault)
      ensures rows == TableAfter(s, old(rows), w, fault)
      ensures executed == old(executed) + [s]
    {
      executed := executed + [s];
      if fault.Before? {
        return Err(fault.error);
      }
      var effect := Execute(s, rows, w);
      if effect.Done? {
        rows := effect.table;
      }
      r := if fault.After? then Err(fault.error)
           else if effect.Violation? then Err(UNIQUE_VIOLATION) else Ok(TagOf(s, effect.affected));
    }
  }

  // ---------------------------------------------------------------- the write path

  /** What may go wrong with each of the three statements of one write. */
  datatype Plan = Plan(insert: Fault, pair: Fault, packet: Fault)

  /** No injected error is taken for a unique violation. */
  predicate Honest(plan: Plan) {
    forall f :: f in {plan.insert, plan.pair, plan.packet} && !f.NoFault? ==> !IsUniqueViolation(f.error)
  }

  const NO_FAULTS := Plan(NoFault, NoFault, NoFault)

  datatype Outcome = Outcome(ok: bool, table: Table, executed: seq<Statement>)

  /** writePacketMax: insert; on a unique violation update the pair; when that affects no row,
      update by packet. */
  function Write(t: Table, w: PacketMax, plan: Plan): Outcome {
    var inserted := Counted(InsertRow, t, w, plan.insert);
    var t1 := TableAfter(InsertRow, t, w, plan.insert);
    if !inserted.Failed? || !IsUniqueViolation(inserted.error) then Outcome(inserted.Rows?, t1, [InsertRow])
    else
      var updated := Counted(UpdatePair, t1, w, plan.pair);
      var t2 := TableAfter(UpdatePair, t1, w, plan.pair);
      if !updated.Rows? || updated.n > 0 then Outcome(updated.Rows?, t2, [InsertRow, UpdatePair])
      else
        var moved := Counted(UpdatePacket, t2, w, plan.packet);
        Outcome(moved.Rows? && moved.n != 0, TableAfter(UpdatePacket, t2, w, plan.packet),
                [InsertRow, UpdatePair, UpdatePacket])
  }

  /** execStatement and parseRowsAffected, through the text of the command tag. */
  method Affected(db: Database, s: Statement, w: PacketMax, fault: Fault) returns (c: Count)
    modifies db
    ensures c == Counted(s, old(db.rows), w, fault)
    ensures db.rows == TableAfter(s, old(db.rows), w, fault)
    ensures db.executed == old(db.executed) + [s]
  {
    ghost var effect := Execute(s, db.rows, w);
    if effect.Done? {
      TagReports(s, effect.affected);
    }
    var tag := db.Exec(s, w, fault);
    if tag.Err? {
      return Failed(tag.error);
    }
    var n := Codec.ParseRowsAffected(tag.value);
    c := if n.Ok? then Rows(n.value) else Unparsed;
  }

  method WritePacketMax(db: Database, w: PacketMax, plan: Plan) returns (r: Result<(), string>)
    modifies db
    ensures r.Ok? == Write(old(db.rows), w, plan).ok
    ensures db.rows == Write(old(db.rows), w, plan).table
    ensures db.executed == old(db.executed) + Write(old(db.rows), w, plan).executed
  {
    var inserted := Affected(db, InsertRow, w, plan.insert);
    if inserted.Unparsed? {
      return Err("parse insert result");
    }
    if inserted.Rows? {
      return Ok(());
    }
    if !IsUniqueViolation(inserted.error) {
      return Err("insert packet max");
    }
    var updated := Affected(db, UpdatePair, w, plan.pair);
    if !updated.Rows? {
      return Err("update packet max by pair");
    }
    if updated.n > 0 {
      return Ok(());
    }
    var moved := Affected(db, UpdatePacket, w, plan.packet);
    if !moved.Rows? {
      return Err("update packet max by packet");
    }
    if moved.n == 0 {
      return Err("update affected 0 rows after unique violation");
    }
    return Ok(());
  }

  /** What one write is meant to do: keep the greatest value, and the timestamp of this write. */
  function Upsert(t: Table, w: PacketMax): Table {
    var k := KeyOf(w);
    t[k := if k in t then Row(Greatest(t[k].value, w.value), w.ts) else Row(w.value, w.ts)]
  }

  /** Whether the insert is answered, rightly or not, with a unique violation. */
  predicate ReadsAsViolation(t: Table, w: PacketMax, plan: Plan) {
    if plan.insert.NoFault? then KeyOf(w) in t else IsUniqueViolation(plan.insert.error)
  }

  /** Whether the insert or the update of the pair takes effect. */
  predicate TakesEffect(t: Table, w: PacketMax, plan: Plan) {
    if KeyOf(w) in t then ReadsAsViolation(t, w, plan) && !plan.pair.Before? else !plan.insert.Before?
  }

  /** Whether the update by packet is executed, takes effect, and finds a row to change. */
  predicate FallbackChanges(t: Table, w: PacketMax, plan: Plan) {
    && UpdatePacket in Write(t, w, plan).executed
    && !plan.packet.Before? && |Lower(t, w)| <= 1
    && exists a :: a in t && a.0 == KeyOf(w).0 && NewRow(t, w, a) != t[a]
  }

  /** With no other writer a write is an upsert, or nothing at all, exactly when its update by packet
      changes nothing; then it says which of the two by whether a statement before took effect. */
  lemma WriteIsUpsert(t: Table, w: PacketMax, plan: Plan)
    ensures !FallbackChanges(t, w, plan) ==>
      Write(t, w, plan).table == if TakesEffect(t, w, plan) then Upsert(t, w) else t
    ensures Write(t, w, plan).table == t || Write(t, w, plan).table == Upsert(t, w) <==> !FallbackChanges(t, w, plan)
  {
    hide IsUniqueViolation, PacketKey, UpdateByPacket;
    if UpdatePacket in Write(t, w, plan).executed {
      FallbackCondition(t, w, plan);
      assert Write(t, w, plan).table == TableAfter(UpdatePacket, t, w, plan.packet);
      UpdateOfAbsentKey(t, w);
    } else {
      OwnKeyWrite(t, w, plan);
    }
  }

  lemma OwnKeyWrite(t: Table, w: PacketMax, plan: Plan)
    requires UpdatePacket !in Write(t, w, plan).executed
    ensures Write(t, w, plan).table == if TakesEffect(t, w, plan) then Upsert(t, w) else t
  {
    assert IsUniqueViolation(UNIQUE_VIOLATION);
    hide IsUniqueViolation, PacketKey, UpdateByPacket;
    var inserted := t[KeyOf(w) := Row(w.value, w.ts)];
    assert inserted[KeyOf(w) := Row(w.value, w.ts)] == inserted;
  }

  /** An update by packet without a row of w's own key: it fails when two rows would take that key,
      and is never an upsert. */
  lemma UpdateOfAbsentKey(t: Table, w: PacketMax)
    requires KeyOf(w) !in t
    ensures UpdateByPacket(t, w).Violation? <==> |Lower(t, w)| > 1
    ensures UpdateByPacket(t, w).Done? ==>
      && UpdateByPacket(t, w).table != Upsert(t, w)
      && (UpdateByPacket(t, w).table == t <==> forall a :: a in t && a.0 == KeyOf(w).0 ==> NewRow(t, w, a) == t[a])
  {
    hide PacketKey;
    assert Ending(t, w) == Lower(t, w);
    if UpdateByPacket(t, w).Done? {
      var u := UpdateByPacket(t, w).table;
      if a :| a in Lower(t, w) {
        assert a !in u && a in Upsert(t, w) && a in t;
        assert NewRow(t, w, a) != t[a];
      } else {
        assert KeyOf(w) !in u && KeyOf(w) in Upsert(t, w);
        assert u == map a | a in t :: NewRow(t, w, a);
      }
    }
  }

  /** Without the update by packet, a write reports success exactly when the insert went through, or
      it read as a unique violation and the update of the pair went through; and success means that
      the upsert took place. */
  lemma WriteSucceedsIff(t: Table, w: PacketMax, plan: Plan)
    requires UpdatePacket !in Write(t, w, plan).executed
    ensures Write(t, w, plan).ok
       <==> (plan.insert.NoFault? && KeyOf(w) !in t) || (ReadsAsViolation(t, w, plan) && plan.pair.NoFault?)
    ensures Write(t, w, plan).ok ==> TakesEffect(t, w, plan) && Write(t, w, plan).table == Upsert(t, w)
    ensures Honest(plan) ==> (Write(t, w, plan).ok <==> plan.insert.NoFault? && (KeyOf(w) in t ==> plan.pair.NoFault?))
  {
    assert IsUniqueViolation(UNIQUE_VIOLATION);
    OwnKeyWrite(t, w, plan);
    hide IsUniqueViolation, PacketKey, UpdateByPacket;
  }

  /** The update by packet runs exactly when the insert of an absent key failed without effect,
      with an error that reads as a unique violation, and the update of the pair went through:
      with no other writer, an honest database never gets there. */
  lemma FallbackCondition(t: Table, w: PacketMax, plan: Plan)
    ensures UpdatePacket in Write(t, w, plan).executed
       <==> KeyOf(w) !in t && plan.insert.Before? && IsUniqueViolation(plan.insert.error) && plan.pair.NoFault?
    ensures Honest(plan) ==> UpdatePacket !in Write(t, w, plan).executed
  { }

  /** message[i..] reads phrase, a text in lower case, in any letter case. */
  predicate ReadsAt(message: string, phrase: string, i: int) {
    && 0 <= i <= |message| - |phrase|
    && forall j :: 0 <= j < |phrase| ==>
         || message[i + j] == phrase[j]
         || ('a' <= phrase[j] <= 'z' && message[i + j] as int == phrase[j] as int - 32)
  }

  lemma ContainsInAnyCase(message: string, phrase: string)
    requires forall j :: 0 <= j < |phrase| ==> !('A' <= phrase[j] <= 'Z')
    ensures Contains(Uuid.ToLower(message), phrase) <==> exists i :: ReadsAt(message, phrase, i)
  {
    var lower := Uuid.ToLower(message);
    if i :| ReadsAt(message, phrase, i) {
      assert lower[i..i + |phrase|] == phrase;
      assert HasAt(lower, phrase, i);
    }
    if i :| 0 <= i <= |lower| && HasAt(lower, phrase, i) {
      forall j | 0 <= j < |phrase|
        ensures message[i + j] == phrase[j]
             || ('a' <= phrase[j] <= 'z' && message[i + j] as int == phrase[j] as int - 32)
      {
        assert lower[i..i + |phrase|][j] == phrase[j];
      }
      assert ReadsAt(message, phrase, i);
    }
  }

  /** A failed insert is taken for a unique violation exactly when its SQLSTATE is 23505, or when it has
      none and its message holds one of two phrases; otherwise the write ends there, with an error. */
  lemma InsertErrorDecides(t: Table, w: PacketMax, plan: Plan, e: DbError)
    requires plan.insert == Before(e) || plan.insert == After(e)
    ensures
      if || e.sqlState == Some("23505")
         || (e.sqlState.None? && exists i :: ReadsAt(e.message, "duplicate key value", i))
         || (e.sqlState.None? && exists i :: ReadsAt(e.message, "unique constraint", i))
      then UpdatePair in Write(t, w, plan).executed
      else !Write(t, w, plan).ok && Write(t, w, plan).executed == [InsertRow]
           && (plan.insert.Before? ==> Write(t, w, plan).table == t)
  {
    ContainsInAnyCase(e.message, "duplicate key value");
    ContainsInAnyCase(e.message, "unique constraint");
    hide Execute, PacketKey, Contains, ReadsAt;
  }

  /** An insert that the database answers without a fault: a new key is inserted, and a key that the
      table holds sends the write on to the update of the pair. */
  lemma InsertAnswerDecides(t: Table, w: PacketMax, plan: Plan)
    requires plan.insert.NoFault?
    ensures if KeyOf(w) in t then Write(t, w, plan).executed == [InsertRow, UpdatePair]
      else Write(t, w, plan) == Outcome(true, t[KeyOf(w) := Row(w.value, w.ts)], [InsertRow])
  {
    hide PacketKey, UpdateByPacket;
  }

  /** The update by packet, when it is reached, succeeds exactly when it is answered, no two rows
      collide and the packet has a row (and no more than 64 bits can count). */
  lemma FallbackSucceedsIff(t: Table, w: PacketMax, plan: Plan)
    requires UpdatePacket in Write(t, w, plan).executed
    ensures Write(t, w, plan).ok
       <==> && plan.packet.NoFault?
            && !(exists a, b :: Collide(t, w, a, b))
            && 0 < |set a | a in t && a.0 == KeyOf(w).0| < 0x8000_0000_0000_0000
  {
    FallbackCondition(t, w, plan);
    UpdateByPacketRowByRow(t, w);
    hide PacketKey, UpdateByPacket, IsUniqueViolation, Collide;
  }

  // ---------------------------------------------------------------- many writes

  function WriteAll(t: Table, ws: seq<PacketMax>): Table {
    if ws == [] then t else Upsert(WriteAll(t, ws[..|ws| - 1]), ws[|ws| - 1])
  }

  /** The writes of one key, in their order. */
  function For(ws: seq<PacketMax>, k: Key): (r: seq<PacketMax>)
    ensures forall w :: w in r <==> w in ws && KeyOf(w) == k
  {
    if ws == [] then []
    else
      assert ws == ws[..|ws| - 1] + [ws[|ws| - 1]];
      For(ws[..|ws| - 1], k) + (if KeyOf(ws[|ws| - 1]) == k then [ws[|ws| - 1]] else [])
  }

  function At(t: Table, k: Key): Option<Row> {
    if k in t then Some(t[k]) else None
  }

  /** v is the greatest of a row's value and the values written. */
  predicate IsGreatest(v: real, r: Option<Row>, ws: seq<PacketMax>) {
    && (r.Some? ==> v >= r.value.value)
    && (forall w :: w in ws ==> v >= w.value)
    && ((r.Some? && v == r.value.value) || exists w :: w in ws && w.value == v)
  }

  /** What a key holds after writes ws to it, when it held r before. */
  predicate Holds(after: Option<Row>, r: Option<Row>, ws: seq<PacketMax>) {
    if ws == [] then after == r
    else after.Some? && IsGreatest(after.value.value, r, ws) && after.value.ts == ws[|ws| - 1].ts
  }

  /** Closed form: no key is lost or altered; each key holds the greatest of its initial value
      and the values written to it, with the timestamp of the last write to it. */
  lemma UpsertClosedForm(t: Table, ws: seq<PacketMax>)
    ensures forall k :: k in WriteAll(t, ws) <==> k in t || exists w :: w in ws && KeyOf(w) == k
    ensures forall k :: Holds(At(WriteAll(t, ws), k), At(t, k), For(ws, k))
  {
    forall k
      ensures k in WriteAll(t, ws) <==> k in t || exists w :: w in ws && KeyOf(w) == k
      ensures Holds(At(WriteAll(t, ws), k), At(t, k), For(ws, k))
    {
      ClosedFormAt(t, ws, k);
      if For(ws, k) != [] {
        assert For(ws, k)[0] in For(ws, k);
      }
    }
  }

  lemma {:induction false} ClosedFormAt(t: Table, ws: seq<PacketMax>, k: Key)
    ensures Holds(At(WriteAll(t, ws), k), At(t, k), For(ws, k))
  {
    if ws != [] {
      var front, w := ws[..|ws| - 1], ws[|ws| - 1];
      ClosedFormAt(t, front, k);
      if KeyOf(w) == k {
        HoldsAfter(At(WriteAll(t, front), k), At(t, k), For(front, k), w);
      }
    }
  }

  lemma HoldsAfter(before: Option<Row>, r: Option<Row>, ws: seq<PacketMax>, w: PacketMax)
    requires Holds(before, r, ws)
    ensures Holds(Some(if before.Some? then Row(Greatest(before.value.value, w.value), w.ts) else Row(w.value, w.ts)),
                  r, ws + [w])
  {
    assert w in ws + [w];
  }

  /** The closed form determines the table. */
  lemma HoldsDetermines(a: Option<Row>, b: Option<Row>, r: Option<Row>, ws: seq<PacketMax>, vs: seq<PacketMax>)
    requires Holds(a, r, ws) && Holds(b, r, vs)
    requires forall w :: w in ws <==> w in vs
    ensures a.Some? <==> b.Some?
    ensures a.Some? ==> a.value.value == b.value.value
  {
    if ws != [] {
      assert ws[0] in vs;
    } else if vs != [] {
      assert vs[0] in ws;
    }
  }

  /** Reordering, or repeating, writes changes no key and no value. */
  lemma PermutedWritesKeepValues(t: Table, ws: seq<PacketMax>, vs: seq<PacketMax>)
    requires forall w :: w in ws <==> w in vs
    ensures WriteAll(t, ws).Keys == WriteAll(t, vs).Keys
    ensures forall k :: k in WriteAll(t, ws) ==> WriteAll(t, ws)[k].value == WriteAll(t, vs)[k].value
  {
    UpsertClosedForm(t, ws);
    UpsertClosedForm(t, vs);
    forall k
      ensures k in WriteAll(t, ws) <==> k in WriteAll(t, vs)
      ensures k in WriteAll(t, ws) ==> WriteAll(t, ws)[k].value == WriteAll(t, vs)[k].value
    {
      HoldsDetermines(At(WriteAll(t, ws), k), At(WriteAll(t, vs), k), At(t, k), For(ws, k), For(vs, k));
    }
  }

  /** Reordering that keeps each key's own order changes nothing. */
  lemma KeyOrderDeterminesTable(t: Table, ws: seq<PacketMax>, vs: seq<PacketMax>)
    requires forall k :: For(ws, k) == For(vs, k)
    ensures WriteAll(t, ws) == WriteAll(t, vs)
  {
    UpsertClosedForm(t, ws);
    UpsertClosedForm(t, vs);
    hide WriteAll, For;
    forall k ensures At(WriteAll(t, ws), k) == At(WriteAll(t, vs), k) {
      HoldsDetermines(At(WriteAll(t, ws), k), At(WriteAll(t, vs), k), At(t, k), For(ws, k), For(vs, k));
    }
    SameAtSameTable(WriteAll(t, ws), WriteAll(t, vs));
  }

  lemma SameAtSameTable(t: Table, u: Table)
    requires forall k :: At(t, k) == At(u, k)
    ensures t == u
  {
    forall k ensures k in t <==> k in u {
      assert At(t, k) == At(u, k);
    }
    forall k | k in t ensures t[k] == u[k] {
      assert At(t, k) == At(u, k);
    }
  }

  /** Replaying a complete sequence of writes is a no-op. */
  lemma ReplayIsNoOp(t: Table, ws: seq<PacketMax>)
    ensures WriteAll(WriteAll(t, ws), ws) == WriteAll(t, ws)
  {
    var once := WriteAll(t, ws);
    UpsertClosedForm(t, ws);
    UpsertClosedForm(once, ws);
    hide WriteAll, For;
    forall k ensures At(WriteAll(once, ws), k) == At(once, k) {
      assert Holds(At(once, k), At(t, k), For(ws, k));
      assert Holds(At(WriteAll(once, ws), k), At(once, k), For(ws, k));
    }
    SameAtSameTable(WriteAll(once, ws), once);
  }

  // ---------------------------------------------------------------- attempted writes

  datatype Attempt = Attempt(item: PacketMax, plan: Plan)

  predicate AllHonest(attempts: seq<Attempt>) {
    forall a :: a in attempts ==> Honest(a.plan)
  }

  /** The table after a sequence of attempted writes. */
  function Replay(t: Table, attempts: seq<Attempt>): Table {
    if attempts == [] then t
    else
      var last := attempts[|attempts| - 1];
      Write(Replay(t, attempts[..|attempts| - 1]), last.item, last.plan).table
  }

  function Items(attempts: seq<Attempt>): (r: seq<PacketMax>)
    ensures |r| == |attempts|
    ensures forall i :: 0 <= i < |r| ==> r[i] == attempts[i].item
  {
    seq(|attempts|, i requires 0 <= i < |attempts| => attempts[i].item)
  }

  /** The attempted items whose statements took effect, in order. */
  function Effective(t: Table, attempts: seq<Attempt>): seq<PacketMax> {
    if attempts == [] then []
    else
      var front, last := attempts[..|attempts| - 1], attempts[|attempts| - 1];
      Effective(t, front) + (if TakesEffect(Replay(t, front), last.item, last.plan) then [last.item] else [])
  }

  /** No attempt changes anything by an update by packet. */
  predicate NeverFallsBack(t: Table, attempts: seq<Attempt>) {
    attempts == []
    || var front, last := attempts[..|attempts| - 1], attempts[|attempts| - 1];
       NeverFallsBack(t, front) && !FallbackChanges(Replay(t, front), last.item, last.plan)
  }

  /** Attempted writes leave the table that the effective ones alone leave. */
  lemma {:induction false} ReplayIsFold(t: Table, attempts: seq<Attempt>)
    requires NeverFallsBack(t, attempts)
    ensures Replay(t, attempts) == WriteAll(t, Effective(t, attempts))
  {
    if attempts != [] {
      var front, last := attempts[..|attempts| - 1], attempts[|attempts| - 1];
      ReplayIsFold(t, front);
      WriteIsUpsert(Replay(t, front), last.item, last.plan);
      hide FallbackChanges, TakesEffect, Write, Upsert;
      WriteAllSnoc(t, Effective(t, front), last.item);
      assert Effective(t, front) + [] == Effective(t, front);
    }
  }

  /** An honest database is enough for that. */
  lemma {:induction false} HonestNeverFallsBack(t: Table, attempts: seq<Attempt>)
    requires AllHonest(attempts)
    ensures NeverFallsBack(t, attempts)
  {
    if attempts != [] {
      var front, last := attempts[..|attempts| - 1], attempts[|attempts| - 1];
      assert last in attempts;
      HonestNeverFallsBack(t, front);
      FallbackCondition(Replay(t, front), last.item, last.plan);
      hide Write;
    }
  }

  lemma WriteAllSnoc(t: Table, ws: seq<PacketMax>, w: PacketMax)
    ensures WriteAll(t, ws + [w]) == Upsert(WriteAll(t, ws), w)
  {
    assert (ws + [w])[..|ws + [w]| - 1] == ws;
  }

  /** Without faults every attempt is effective. */
  lemma {:induction false} FaultlessAttemptsAreEffective(t: Table, attempts: seq<Attempt>)
    requires forall a :: a in attempts ==> a.plan == NO_FAULTS
    ensures Effective(t, attempts) == Items(attempts)
  {
    if attempts != [] {
      var front, last := attempts[..|attempts| - 1], attempts[|attempts| - 1];
      assert last in attempts;
      FaultlessAttemptsAreEffective(t, front);
      assert Items(attempts) == Items(front) + [last.item];
    }
  }

  lemma {:induction false} EffectiveWereAttempted(t: Table, attempts: seq<Attempt>)
    ensures forall w :: w in Effective(t, attempts) ==> exists i :: 0 <= i < |attempts| && attempts[i].item == w
  {
    if attempts != [] {
      var front := attempts[..|attempts| - 1];
      EffectiveWereAttempted(t, front);
      forall w | w in Effective(t, attempts) ensures exists i :: 0 <= i < |attempts| && attempts[i].item == w {
        if w in Effective(t, front) {
          var i :| 0 <= i < |front| && front[i].item == w;
          assert attempts[i].item == w;
        } else {
          assert attempts[|attempts| - 1].item == w;
        }
      }
    }
  }

  predicate DistinctPackets(ws: seq<PacketMax>) {
    forall i, j :: 0 <= i < j < |ws| ==> PacketKey(ws[i].packetId) != PacketKey(ws[j].packetId)
  }

  /** Key k holds exactly the item w. */
  predicate IsRowOf(t: Table, k: Key, w: PacketMax) {
    k in t && KeyOf(w) == k && t[k] == Row(w.value, w.ts)
  }

  /** Every row is exactly one of the items ws, and no packet has two rows. */
  predicate ExactRows(t: Table, ws: seq<PacketMax>) {
    && (forall k :: k in t ==> exists i :: 0 <= i < |ws| && IsRowOf(t, k, ws[i]))
    && (forall k, l :: k in t && l in t && k.0 == l.0 ==> k == l)
  }

  /** On a table without rows of w's packet a write inserts the row of w or changes nothing,
      whatever error a statement gives; an update by packet finds no row there. */
  lemma WriteOfNewPacket(t: Table, w: PacketMax, plan: Plan)
    requires forall k :: k in t ==> k.0 != KeyOf(w).0
    ensures Write(t, w, plan).table == if plan.insert.Before? then t else t[KeyOf(w) := Row(w.value, w.ts)]
  {
    hide PacketKey, IsUniqueViolation;
    assert Lower(t, w) == {};
    var inserted := t[KeyOf(w) := Row(w.value, w.ts)];
    assert Execute(UpdatePair, inserted, w).Done? ==> Execute(UpdatePair, inserted, w).table == inserted;
  }

  lemma DistinctSnoc(ws: seq<PacketMax>, w: PacketMax)
    requires DistinctPackets(ws + [w])
    ensures DistinctPackets(ws)
    ensures forall i :: 0 <= i < |ws| ==> KeyOf(ws[i]).0 != KeyOf(w).0
  {
    hide PacketKey;
    assert forall i :: 0 <= i < |ws| ==> (ws + [w])[i] == ws[i];
    assert (ws + [w])[|ws|] == w;
  }

  /** Exact rows stay exact when an item of a new packet is inserted, or is not. */
  lemma ExactRowsSnoc(t: Table, ws: seq<PacketMax>, w: PacketMax)
    requires ExactRows(t, ws)
    requires forall i :: 0 <= i < |ws| ==> KeyOf(ws[i]).0 != KeyOf(w).0
    ensures forall k :: k in t ==> k.0 != KeyOf(w).0
    ensures ExactRows(t, ws + [w]) && ExactRows(t[KeyOf(w) := Row(w.value, w.ts)], ws + [w])
  {
    hide PacketKey;
    var u := t[KeyOf(w) := Row(w.value, w.ts)];
    forall k | k in t
      ensures k.0 != KeyOf(w).0
      ensures exists i :: 0 <= i < |ws + [w]| && IsRowOf(t, k, (ws + [w])[i])
      ensures exists i :: 0 <= i < |ws + [w]| && IsRowOf(u, k, (ws + [w])[i])
    {
      var i :| 0 <= i < |ws| && IsRowOf(t, k, ws[i]);
      assert (ws + [w])[i] == ws[i];
    }
    assert IsRowOf(u, KeyOf(w), (ws + [w])[|ws|]);
  }

  /** Attempting items of pairwise different packets on an empty table leaves exact rows, whatever
      statements fail and with whatever errors: an update by packet changes nothing, and the row of an
      item is missing exactly when its insert failed without effect. */
  lemma {:induction false} DistinctPacketsGiveExactRows(attempts: seq<Attempt>, t: Table)
    requires DistinctPackets(Items(attempts))
    requires t == Replay(map[], attempts)
    ensures ExactRows(t, Items(attempts)) && NeverFallsBack(map[], attempts)
    ensures forall a :: a in attempts ==>
      if a.plan.insert.Before? then KeyOf(a.item) !in t else IsRowOf(t, KeyOf(a.item), a.item)
    decreases |attempts|
  {
    if attempts != [] {
      var front, last := attempts[..|attempts| - 1], attempts[|attempts| - 1];
      var was, ws := Replay(map[], front), Items(front);
      assert Items(attempts) == ws + [last.item];
      hide KeyOf, Write, ExactRows, IsRowOf, DistinctPackets;
      DistinctSnoc(ws, last.item);
      DistinctPacketsGiveExactRows(front, was);
      ExactRowsSnoc(was, ws, last.item);
      WriteOfNewPacket(was, last.item, last.plan);
      assert !FallbackChanges(was, last.item, last.plan);
      OldAttemptsKeepRows(front, was, last.item);
    } else {
      assert Items(attempts) == [];
    }
  }

  lemma OldAttemptsKeepRows(attempts: seq<Attempt>, t: Table, w: PacketMax)
    requires forall i :: 0 <= i < |attempts| ==> KeyOf(Items(attempts)[i]).0 != KeyOf(w).0
    ensures forall a :: a in attempts ==> KeyOf(a.item) != KeyOf(w)
    ensures forall a :: a in attempts ==>
      && (KeyOf(a.item) in t[KeyOf(w) := Row(w.value, w.ts)] <==> KeyOf(a.item) in t)
      && (IsRowOf(t[KeyOf(w) := Row(w.value, w.ts)], KeyOf(a.item), a.item) <==> IsRowOf(t, KeyOf(a.item), a.item))
  {
    hide PacketKey;
    forall a | a in attempts ensures KeyOf(a.item) != KeyOf(w) {
      var i :| 0 <= i < |attempts| && attempts[i] == a;
      assert Items(attempts)[i] == a.item;
    }
  }
}
