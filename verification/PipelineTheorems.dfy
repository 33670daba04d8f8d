/** What the whole service guarantees in every run, from start to the end of main. */
module PipelineTheorems {
  import opened Domain
  import opened MaxMeasurement
  import opened PacketTable
  import opened Pipeline
  import opened Reader
  import Codec
  import opened Text
  import Uuid
  import P = WorkerPool
  import B = Batcher

  predicate Reachable(c: Config, steps: seq<Step>, s: State) {
    ValidConfig(c) && Runs(c, Init(c), steps, s)
  }

  lemma ReachableInv(c: Config, steps: seq<Step>, s: State)
    requires Reachable(c, steps, s)
    ensures Inv(c, s)
  {
    InitInv(c);
    RunInv(c, Init(c), steps, s);
  }

  // ---------------------------------------------------------------- conservation

  /** Where every generated packet is: with the generator, in the channel, in a worker's hand, stored,
      refused by Add, given up by the pool, or given up by the generator. */
  function Everywhere(s: State): multiset<DataPacket> {
    multiset(Held(s.gen)) + multiset(s.pool.queue) + P.Hands(s.pool.workers)
    + multiset(P.Packets(s.pool.stored)) + multiset(P.Packets(s.pool.refused))
    + multiset(s.pool.skipped) + multiset(s.lost)
  }

  lemma {:induction false} DistinctCounts(ps: seq<DataPacket>, p: DataPacket)
    requires DistinctIds(ps)
    ensures multiset(ps)[p] == if p in ps then 1 else 0
  {
    if ps != [] {
      var front, last := ps[..|ps| - 1], ps[|ps| - 1];
      assert ps == front + [last];
      DistinctCounts(front, p);
      forall i | 0 <= i < |front| ensures front[i] != last {
        assert ps[i].id != ps[|ps| - 1].id;
      }
    }
  }

  /** Packet conservation: the places together hold exactly the generated packets, each once; so no
      packet is in two places and none reaches Add twice. */
  lemma PacketsAreConserved(c: Config, steps: seq<Step>, s: State)
    requires Reachable(c, steps, s)
    ensures Everywhere(s) == multiset(s.generated)
    ensures forall p :: Everywhere(s)[p] == if p in s.generated then 1 else 0
  {
    ReachableInv(c, steps, s);
    GeneratedIsEverywhere(c, s);
    forall p ensures Everywhere(s)[p] == if p in s.generated then 1 else 0 {
      DistinctCounts(s.generated, p);
    }
  }

  lemma GeneratedIsEverywhere(c: Config, s: State)
    requires GenInv(c, s) && P.Conserved(s.pool)
    ensures Everywhere(s) == multiset(s.generated)
  {
    hide IsGenerated;
    assert s.generated == s.pool.taken + s.pool.queue + Held(s.gen) + s.lost;
  }

  /** Before cancellation a service with a worker drops nothing; without a worker it stores nothing. */
  lemma NothingDroppedBeforeCancel(c: Config, steps: seq<Step>, s: State)
    requires Reachable(c, steps, s) && !s.pool.cancelled
    ensures c.workers >= 1 ==> s.pool.skipped == [] && s.pool.refused == [] && s.lost == []
    ensures c.workers == 0 ==> s.pool.stored == [] && multiset(s.pool.taken) == multiset(s.pool.skipped)
  {
    ReachableInv(c, steps, s);
    if c.workers >= 1 {
      SkippedAreEmpty(c, s);
    } else {
      StoredNeedWorkers(c, Init(c), steps, s);
    }
  }

  lemma SkippedAreEmpty(c: Config, s: State)
    requires Inv(c, s) && !s.pool.cancelled && c.workers >= 1
    ensures s.pool.skipped == []
  {
    FirstSkippedIsNotEmpty(c, s);
  }

  lemma FirstSkippedIsNotEmpty(c: Config, s: State)
    requires ValidConfig(c) && GenInv(c, s) && P.Conserved(s.pool)
    ensures s.pool.skipped != [] ==>
      s.pool.skipped[0] in s.pool.skipped && s.pool.skipped[0].measurements != []
  {
    if s.pool.skipped != [] {
      var p := s.pool.skipped[0];
      assert p in multiset(s.pool.taken);
      assert p in s.pool.taken;
      assert p in s.generated;
    }
  }

  lemma {:induction false} StoredNeedWorkers(c: Config, s: State, steps: seq<Step>, t: State)
    requires Runs(c, s, steps, t) && s.pool.workers == []
    requires s.pool.stored == [] && s.pool.refused == []
    ensures t.pool.workers == [] && t.pool.stored == [] && t.pool.refused == []
    decreases |steps|
  {
    if steps != [] {
      PoolStaysIdle(c, s, steps[0]);
      StoredNeedWorkers(c, Apply(c, s, steps[0]), steps[1..], t);
    }
  }

  lemma PoolStaysIdle(c: Config, s: State, step: Step)
    requires Enabled(c, s, step) && s.pool.workers == []
    ensures Apply(c, s, step).pool.workers == []
    ensures Apply(c, s, step).pool.stored == s.pool.stored && Apply(c, s, step).pool.refused == s.pool.refused
  {
    ApplyComponents(c, s, step);
    hide B.Enabled, B.Apply, Apply, RepoAfter, Guard;
  }

  // ---------------------------------------------------------------- end to end

  lemma StoredPacketsAreDistinct(c: Config, s: State)
    requires Inv(c, s)
    ensures forall i, j :: 0 <= i < j < |s.pool.stored| ==> s.pool.stored[i].packet.id != s.pool.stored[j].packet.id
    ensures forall i :: 0 <= i < |s.pool.stored| ==> s.pool.stored[i].packet in s.generated
  {
    hide B.Inv, IsGenerated;
    var ps := P.Packets(s.pool.stored);
    GeneratedIsEverywhere(c, s);
    forall i | 0 <= i < |ps| ensures ps[i] in s.generated {
      assert ps[i] in multiset(ps);
      assert ps[i] in Everywhere(s);
    }
    forall i, j | 0 <= i < j < |ps| ensures ps[i].id != ps[j].id {
      TwiceIn(ps, i, j);
      DistinctCounts(s.generated, ps[i]);
      assert multiset(ps)[ps[i]] <= Everywhere(s)[ps[i]];
      var a :| 0 <= a < |s.generated| && s.generated[a] == ps[i];
      var b :| 0 <= b < |s.generated| && s.generated[b] == ps[j];
      assert a != b;
    }
  }

  lemma TwiceIn<T>(ps: seq<T>, i: nat, j: nat)
    requires i < j < |ps|
    ensures ps[i] == ps[j] ==> multiset(ps)[ps[i]] >= 2
  {
    P.RemoveOne(ps, j);
    var rest := ps[..j] + ps[j + 1..];
    assert rest[i] == ps[i];
    assert ps[i] in multiset(rest) && multiset(ps)[ps[i]] == multiset(rest)[ps[i]] + multiset{ps[j]}[ps[i]];
  }

  /** A measurement of a generated packet carries identifiers as the database prints them. */
  lemma GeneratedMeasurement(c: Config, p: DataPacket, m: Measurement)
    requires IsGenerated(c, p) && m in p.measurements
    ensures m.packetId == p.id && PacketKey(p.id) == p.id && PacketKey(m.sourceId) == m.sourceId
    ensures Uuid.HexForm(p.id) && Uuid.HexForm(m.sourceId)
  {
    hide Uuid.ParseUuid, Uuid.ToLower, Uuid.HexForm;
    Uuid.ParseAcceptsHexFormOnly(p.id);
    Uuid.ParseAcceptsHexFormOnly(m.sourceId);
  }

  lemma RecordKey(c: Config, w: PacketMax, p: DataPacket, m: Measurement)
    requires IsGenerated(c, p) && m in p.measurements && IsRecordOf(w, m)
    ensures KeyOf(w) == (p.id, w.sourceId) && Uuid.HexForm(p.id) && Uuid.HexForm(w.sourceId)
  {
    assert w == ToPacketMax(m);
    hide IsGenerated, PacketKey, Uuid.HexForm, IsRecordOf;
    GeneratedMeasurement(c, p, m);
  }

  lemma MaximumKey(c: Config, w: PacketMax, p: DataPacket)
    requires IsGenerated(c, p) && IsMaximumOf(w, p)
    ensures KeyOf(w) == (p.id, w.sourceId) && Uuid.HexForm(p.id) && Uuid.HexForm(w.sourceId)
  {
    var k :| 0 <= k < |p.measurements| && IsRecordOf(w, p.measurements[k]);
    hide *;
    RecordKey(c, w, p, p.measurements[k]);
  }

  lemma StoredJob(c: Config, s: State, i: nat)
    requires Inv(c, s) && i < |s.pool.stored|
    ensures var job := s.pool.stored[i];
      && IsMaximumOf(job.item, job.packet)
      && job.packet in s.generated && IsGenerated(c, job.packet)
      && i < |s.repo.log.accepted| && s.repo.log.accepted[i] == job.item
  {
    StoredPacketsAreDistinct(c, s);
    hide B.Inv, IsGenerated, IsMaximumOf;
    assert s.pool.stored[i] in s.pool.stored;
  }

  /** A stored item is the maximum of its packet, under the packet's own identifier. */
  lemma StoredItem(c: Config, s: State, i: nat)
    requires Inv(c, s) && i < |s.pool.stored|
    ensures var job := s.pool.stored[i];
      && IsMaximumOf(job.item, job.packet)
      && job.packet in s.generated
      && KeyOf(job.item) == (job.packet.id, job.item.sourceId)
      && Uuid.HexForm(job.packet.id) && Uuid.HexForm(job.item.sourceId)
      && s.repo.log.accepted[i] == job.item
  {
    StoredJob(c, s, i);
    hide Inv;
    MaximumKey(c, s.pool.stored[i].item, s.pool.stored[i].packet);
  }

  /** Row k of the table holds, column by column, the earliest greatest measurement i of a generated
      packet, whose identifier is that of the row. */
  predicate IsTrueRow(s: State, k: Key, p: DataPacket, i: int) {
    && p in s.generated && k in s.repo.table && EarliestGreatest(p.measurements, i)
    && var m := p.measurements[i];
       && k.0 == m.packetId == p.id && k.1 == m.sourceId
       && s.repo.table[k].value == m.value && s.repo.table[k].ts == m.ts
  }

  /** End-to-end safety: in every reachable state each row is exactly the maximum of one generated
      packet, and no packet has two rows; whatever statements have failed on the way, and with
      whatever errors; and the table is the upserts of the items whose statements took effect. */
  lemma RowsAreTrueMaxima(c: Config, steps: seq<Step>, s: State)
    requires Reachable(c, steps, s)
    ensures forall k :: k in s.repo.table ==> exists p, i :: IsTrueRow(s, k, p, i)
    ensures forall k, l :: k in s.repo.table && l in s.repo.table && k.0 == l.0 ==> k == l
    ensures StoredIds(s.repo.table)
    ensures s.repo.table == WriteAll(map[], Effective(map[], s.repo.log.attempts))
  {
    ReachableInv(c, steps, s);
    AttemptsAreStored(c, s);
    DistinctPacketsGiveExactRows(s.repo.log.attempts, s.repo.table);
    ReplayIsFold(map[], s.repo.log.attempts);
    forall k | k in s.repo.table
      ensures exists p, i :: IsTrueRow(s, k, p, i)
      ensures Uuid.HexForm(k.0) && Uuid.HexForm(k.1)
    {
      var ws := Items(s.repo.log.attempts);
      var i :| 0 <= i < |ws| && IsRowOf(s.repo.table, k, ws[i]);
      StoredItem(c, s, i);
      StoredRow(c, s, i, k);
    }
  }

  lemma StoredRow(c: Config, s: State, i: nat, k: Key)
    requires Inv(c, s) && i < |s.pool.stored| && IsRowOf(s.repo.table, k, s.pool.stored[i].item)
    ensures exists p, j :: IsTrueRow(s, k, p, j)
  {
    StoredItem(c, s, i);
    hide Inv, EarliestGreatest;
    var job := s.pool.stored[i];
    var p := job.packet;
    var j :| 0 <= j < |p.measurements| && EarliestGreatest(p.measurements, j)
             && IsRecordOf(job.item, p.measurements[j]);
    assert IsTrueRow(s, k, p, j);
  }

  lemma AttemptsAreStored(c: Config, s: State)
    requires Inv(c, s)
    ensures |s.repo.log.attempts| <= |s.pool.stored|
    ensures forall i :: 0 <= i < |s.repo.log.attempts| ==> s.repo.log.attempts[i].item == s.pool.stored[i].item
    ensures DistinctPackets(Items(s.repo.log.attempts))
  {
    StoredPacketsAreDistinct(c, s);
    hide P.Inv, GenInv, CallsInv, MainInv, KeepsInv, IsMaximumOf, Uuid.HexForm, Replay;
    var ws := Items(s.repo.log.attempts);
    assert s.repo.log.accepted == ws + (B.Unwritten(s.repo.consumer) + B.Pending(s.repo.consumer) + s.repo.buffer);
    forall i | 0 <= i < |ws|
      ensures ws[i] == s.pool.stored[i].item && PacketKey(ws[i].packetId) == s.pool.stored[i].packet.id
    {
      StoredItem(c, s, i);
      assert s.repo.log.accepted[i] == ws[i];
    }
  }

  /** The database prints the values and timestamps of the generated packets so that they read back. */
  predicate GeneratedReadBack(s: State, columns: Codec.Columns) {
    forall p, m :: p in s.generated && m in p.measurements ==>
      Codec.ReadsBack(columns.value, m.value) && Codec.ReadsBack(columns.ts, m.ts)
  }

  /** A lookup by id, in any letter case, returns the true maximum of the generated packet with that
      identifier, or not-found exactly when the table holds no row of it. */
  lemma LookupReturnsTrueMaximum(c: Config, steps: seq<Step>, s: State, columns: Codec.Columns, id: string,
                                 rows: seq<PacketMax>)
    requires Reachable(c, steps, s) && GeneratedReadBack(s, columns)
    requires Uuid.ParseUuid(id).Ok? && LimitOne(s.repo.table, id, rows)
    ensures var r := PacketMaxById(columns, id, Ok(Codec.Terminated(Codec.Lines(columns, rows))));
      if forall k :: k in s.repo.table ==> k.0 != Uuid.ToLower(id) then r == Err(NotFound)
      else r.Ok? && exists p :: p in s.generated && p.id == Uuid.ToLower(id) && IsMaximumOf(r.value, p)
  {
    RowsAreTrueMaxima(c, steps, s);
    forall k | k in s.repo.table
      ensures Codec.ReadsBack(columns.value, s.repo.table[k].value) && Codec.ReadsBack(columns.ts, s.repo.table[k].ts)
    {
      var p, i :| IsTrueRow(s, k, p, i);
      assert p.measurements[i] in p.measurements;
    }
    LookupReturnsSelected(columns, s.repo.table, id, rows);
    if rows != [] {
      var k :| k in s.repo.table && k.0 == PacketKey(id) && rows[0] == RowAt(s.repo.table, k);
      var p, i :| IsTrueRow(s, k, p, i);
      assert IsRecordOf(rows[0], p.measurements[i]);
    }
  }

  /** With decimal columns that holds of every run whose timestamps fit in 64 bits. */
  lemma DecimalColumnsReadBack(c: Config, steps: seq<Step>, s: State)
    requires Reachable(c, steps, s)
    requires forall p, m :: p in s.generated && m in p.measurements ==> -INT64_LIMIT <= m.ts < INT64_LIMIT
    ensures GeneratedReadBack(s, Codec.DECIMAL)
  {
    ReachableInv(c, steps, s);
    forall p, m | p in s.generated && m in p.measurements
      ensures Codec.ReadsBack(Codec.DECIMAL.value, m.value) && Codec.ReadsBack(Codec.DECIMAL.ts, m.ts)
    {
      assert IsGenerated(c, p);
      Codec.DecimalReadsBack(m.value.Floor);
      Codec.DecimalReadsBack(m.ts);
    }
  }

  // ---------------------------------------------------------------- shutdown

  /** main returns only after an orderly shutdown: everything Add accepted has been attempted, in
      order, before the runner was closed, once. A stored packet then lacks its row exactly when its
      insert failed without effect; without faults the table is the upserts of the stored items. */
  lemma OrderlyShutdown(c: Config, steps: seq<Step>, s: State)
    requires Reachable(c, steps, s) && s.main.Returned?
    ensures s.repo.consumer.pc.Exited? && s.repo.buffer == [] && s.repo.consumer.batch == []
    ensures Items(s.repo.log.attempts) == s.repo.log.accepted == StoredItems(s.pool.stored)
    ensures s.repo.closing.runnerCloses == 1 && s.repo.log.lateWrites == 0
    ensures forall a :: a in s.repo.log.attempts ==>
      if a.plan.insert.Before? then KeyOf(a.item) !in s.repo.table else IsRowOf(s.repo.table, KeyOf(a.item), a.item)
    ensures (forall a :: a in s.repo.log.attempts ==> a.plan == NO_FAULTS) ==>
      s.repo.table == WriteAll(map[], StoredItems(s.pool.stored))
  {
    hide Runs, P.Inv, GenInv, CallsInv, WriteAll, IsRowOf, ExactRows, DistinctPackets;
    ReachableInv(c, steps, s);
    assert s.repo.buffer == [];
    AttemptsAreStored(c, s);
    DistinctPacketsGiveExactRows(s.repo.log.attempts, s.repo.table);
    if forall a :: a in s.repo.log.attempts ==> a.plan == NO_FAULTS {
      FaultlessReplay(s.repo.log.attempts);
    }
  }

  lemma FaultlessReplay(attempts: seq<Attempt>)
    requires forall a :: a in attempts ==> a.plan == NO_FAULTS
    ensures Replay(map[], attempts) == WriteAll(map[], Items(attempts))
  {
    HonestNeverFallsBack(map[], attempts);
    ReplayIsFold(map[], attempts);
    FaultlessAttemptsAreEffective(map[], attempts);
  }
}
