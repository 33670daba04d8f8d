/** The running service: generator, worker pool, repository and main's shutdown, as one product of
    protocols (app/src/cmd/start/main.go). Every step is a step of one or two components. */
module Pipeline {
  import opened Domain
  import opened MaxMeasurement
  import opened PacketTable
  import opened Generator
  import Uuid
  import P = WorkerPool
  import B = Batcher

  datatype Config = Config(packetSize: nat, packetBuffer: nat, workers: nat, repo: B.Config)

  predicate ValidConfig(c: Config) {
    c.packetSize >= 1 && c.packetBuffer >= 1 && B.ValidConfig(c.repo)
  }

  /** The defaults applied by NewGenerator, main, NewWorkerPool and New. */
  function Normalise(packetSize: int, packetBuffer: int, workers: int,
                     batchSize: int, batchTimeout: int, bufferSize: int): (c: Config)
    ensures ValidConfig(c) && c.repo == B.Normalise(batchSize, batchTimeout, bufferSize)
    ensures packetSize >= 1 ==> c.packetSize == packetSize
    ensures packetSize < 1 ==> c.packetSize == 1
    ensures packetBuffer >= 1 ==> c.packetBuffer == packetBuffer
    ensures packetBuffer < 1 ==> c.packetBuffer == 100
    ensures workers >= 0 ==> c.workers == workers
    ensures workers < 0 ==> c.workers == 0
  {
    Config(NormalSize(packetSize), if packetBuffer <= 0 then 100 else packetBuffer,
           if workers < 0 then 0 else workers, B.Normalise(batchSize, batchTimeout, bufferSize))
  }

  datatype Gen = Ticking | Holding(packet: DataPacket) | Exited

  /** main: until its context ends; in workers.Wait; in the deferred cleanup; returned. */
  datatype Main = Serving | Waiting | Closing | Returned

  /** History: every packet generated, and the one a stopping generator gave up. */
  datatype State = State(gen: Gen, pool: P.State, repo: B.State, main: Main,
                         generated: seq<DataPacket>, lost: seq<DataPacket>)

  function Init(c: Config): State {
    State(Ticking, P.Init(c.workers), B.Init(map[]), Serving, [], [])
  }

  datatype Step =
    | Tick(draw: Draw) | GenSend | GenStop
    | Cancel | Join | Exit
    | Work(p: P.Step)
    | InAdd(b: B.Step) | Consume(b: B.Step) | Clock(b: B.Step) | Close(b: B.Step)

  /** The Add call of b returns with this step. */
  predicate Resolves(s: State, b: B.Step) {
    b.AddInvalid? || b.AddCancelled? || b.AddSend? || b.AddStopped? || (b.AddCheck? && s.repo.closed)
  }

  /** The scan of worker w ends here, and the worker calls Add. */
  predicate ScanEnds(s: State, p: P.Step) {
    p.Scan? && p.w < |s.pool.workers| && s.pool.workers[p.w].Scanning?
    && var v := s.pool.workers[p.w]; v.i >= |v.packet.measurements| && v.best.Some?
  }

  function PoolStep(s: State, step: Step): Option<P.Step> {
    match step
    case GenSend => if s.gen.Holding? then Some(P.Send(s.gen.packet)) else None
    case GenStop => Some(P.CloseChannel)
    case Cancel => Some(P.Cancel)
    case Work(p) => Some(p)
    case InAdd(b) => if Resolves(s, b) then Some(P.AddReturns(b.id, b.AddSend?)) else None
    case _ => None
  }

  function RepoStep(s: State, step: Step): Option<B.Step> {
    match step
    case Work(p) =>
      if ScanEnds(s, p) then Some(B.AddEnter(p.w, ToPacketMax(s.pool.workers[p.w].best.value))) else None
    case Join => Some(B.CloseEnter(0))
    case InAdd(b) => Some(b)
    case Consume(b) => Some(b)
    case Clock(b) => Some(b)
    case Close(b) => Some(b)
    case _ => None
  }

  /** What a step needs besides its component steps being ready. */
  predicate Guard(c: Config, s: State, step: Step) {
    match step
    case Tick(d) =>
      && s.gen.Ticking? && ValidDraw(c.packetSize, d)
      && forall p :: p in s.generated ==> p.id != Uuid.Generated(d.id)
    case GenSend => s.gen.Holding?
    case GenStop => !s.gen.Exited? && s.pool.cancelled
    case Cancel => s.main.Serving?
    case Join => s.main.Waiting? && s.gen.Exited? && P.Finished(s.pool)
    case Exit => s.main.Closing? && s.repo.closing.callers == map[]
    case Work(p) => p.Take? || p.Scan? || p.Leave? || p.Drain? || p.DrainLeave?
    case InAdd(b) => B.IsAdd(b) && !b.AddEnter? && (b.AddCancelled? ==> s.pool.cancelled)
    case Consume(b) => B.IsConsume(b)
    case Clock(b) => b.Elapse? || b.TimerFires?
    case Close(b) => b.CloseLock? || b.CloseJoined? || b.CloseOnce?
  }

  predicate Enabled(c: Config, s: State, step: Step) {
    && Guard(c, s, step)
    && (PoolStep(s, step).Some? ==> P.Enabled(c.packetBuffer, s.pool, PoolStep(s, step).value))
    && (RepoStep(s, step).Some? ==> B.Enabled(c.repo, s.repo, RepoStep(s, step).value))
  }

  function PoolAfter(c: Config, s: State, step: Step): P.State
    requires Enabled(c, s, step)
  {
    var p := PoolStep(s, step);
    if p.None? then s.pool else P.Apply(c.packetBuffer, s.pool, p.value)
  }

  function RepoAfter(c: Config, s: State, step: Step): B.State
    requires Enabled(c, s, step)
  {
    var b := RepoStep(s, step);
    if b.None? then s.repo else B.Apply(c.repo, s.repo, b.value)
  }

  function Held(gen: Gen): seq<DataPacket> { if gen.Holding? then [gen.packet] else [] }

  function Apply(c: Config, s: State, step: Step): State
    requires Enabled(c, s, step)
  {
    var moved := s.(pool := PoolAfter(c, s, step), repo := RepoAfter(c, s, step));
    match step
    case Tick(d) =>
      var p := MakePacket(c.packetSize, d);
      moved.(gen := Holding(p), generated := s.generated + [p])
    case GenSend => moved.(gen := Ticking)
    case GenStop => moved.(gen := Exited, lost := s.lost + Held(s.gen))
    case Cancel => moved.(main := Waiting)
    case Join => moved.(main := Closing)
    case Exit => moved.(main := Returned)
    case _ => moved
  }

  predicate Runs(c: Config, s: State, steps: seq<Step>, t: State)
    decreases |steps|
  {
    if steps == [] then s == t
    else Enabled(c, s, steps[0]) && Runs(c, Apply(c, s, steps[0]), steps[1..], t)
  }

  // ---------------------------------------------------------------- invariant

  predicate IsGenerated(c: Config, p: DataPacket) {
    && |p.measurements| == c.packetSize
    && Uuid.ParseUuid(p.id) == Ok(p.id) && Uuid.ToLower(p.id) == p.id
    && forall m :: m in p.measurements ==>
         && m.packetId == p.id
         && Uuid.ParseUuid(m.sourceId) == Ok(m.sourceId) && Uuid.ToLower(m.sourceId) == m.sourceId
         && 0.0 <= m.value < 1000.0 && m.value == m.value.Floor as real
  }

  predicate DistinctIds(ps: seq<DataPacket>) {
    forall i, j :: 0 <= i < j < |ps| ==> ps[i].id != ps[j].id
  }

  /** What the generator made is what it sent, then what it holds, then what it gave up. */
  predicate GenInv(c: Config, s: State) {
    && s.generated == s.pool.sent + Held(s.gen) + s.lost
    && (forall p :: p in s.generated ==> IsGenerated(c, p))
    && DistinctIds(s.generated)
    && (s.gen.Exited? <==> s.pool.channelClosed)
    && (!s.gen.Exited? ==> s.lost == [])
  }

  function StoredItems(jobs: seq<P.Job>): (r: seq<PacketMax>)
    ensures |r| == |jobs|
    ensures forall i :: 0 <= i < |r| ==> r[i] == jobs[i].item
  {
    seq(|jobs|, i requires 0 <= i < |jobs| => jobs[i].item)
  }

  /** Worker w is in Add exactly when the repository has a call w, of the same item. */
  predicate CallsInv(s: State) {
    && (forall w :: w in s.repo.calls ==> w < |s.pool.workers| && s.pool.workers[w].Adding?)
    && (forall w :: 0 <= w < |s.pool.workers| && s.pool.workers[w].Adding? ==>
         w in s.repo.calls && s.repo.calls[w].item == s.pool.workers[w].item)
  }

  predicate LogsInv(s: State) {
    && s.repo.log.accepted == StoredItems(s.pool.stored)
    && s.repo.log.refused == StoredItems(s.pool.refused)
  }

  /** main's order: nothing is closed before the generator and the pool have returned. */
  predicate MainInv(s: State) {
    var g := s.repo.closing;
    && (s.main.Serving? <==> !s.pool.cancelled)
    && (s.main.Closing? || s.main.Returned? ==> s.gen.Exited? && P.Finished(s.pool))
    && (s.gen.Exited? ==> s.pool.cancelled)
    && (forall id :: id in g.callers ==> id == 0 && s.main.Closing?)
    && (s.main.Serving? || s.main.Waiting? ==> !s.repo.closed && g.completed == 0)
    && (s.main.Closing? ==> 0 in g.callers || g.completed > 0)
    && (s.main.Returned? ==> g.completed > 0)
    && !g.overlapped
    && (s.repo.log.mark.Some? ==> s.repo.log.mark.value.waiting == 0)
  }

  /** Before cancellation no Add fails. */
  predicate KeepsInv(s: State) { s.pool.cancelled || s.pool.refused == [] }

  predicate Inv(c: Config, s: State) {
    && ValidConfig(c)
    && P.Inv(s.pool)
    && B.Inv(c.repo, map[], s.repo)
    && |s.pool.workers| == c.workers
    && GenInv(c, s)
    && CallsInv(s)
    && LogsInv(s)
    && MainInv(s)
    && KeepsInv(s)
  }

  // ---------------------------------------------------------------- preservation

  lemma InitInv(c: Config)
    requires ValidConfig(c)
    ensures Inv(c, Init(c))
  {
    P.InitInv(c.workers);
    B.InitInv(c.repo, map[]);
  }

  lemma StepComponents(c: Config, s: State, step: Step)
    requires P.Inv(s.pool) && B.Inv(c.repo, map[], s.repo) && Enabled(c, s, step)
    ensures P.Inv(PoolAfter(c, s, step)) && B.Inv(c.repo, map[], RepoAfter(c, s, step))
    ensures |PoolAfter(c, s, step).workers| == |s.pool.workers|
  {
    hide P.Inv, B.Inv, B.Apply, B.Enabled;
    if PoolStep(s, step).Some? {
      P.StepInv(c.packetBuffer, s.pool, PoolStep(s, step).value);
    }
    if RepoStep(s, step).Some? {
      B.StepInv(c.repo, map[], s.repo, RepoStep(s, step).value);
    }
  }

  lemma MadePacket(c: Config, d: Draw)
    requires c.packetSize >= 1 && ValidDraw(c.packetSize, d)
    ensures IsGenerated(c, MakePacket(c.packetSize, d))
  {
    var p := MakePacket(c.packetSize, d);
    forall m | m in p.measurements
      ensures Uuid.ParseUuid(m.packetId) == Ok(m.packetId) && Uuid.ToLower(m.packetId) == m.packetId
      ensures Uuid.ParseUuid(m.sourceId) == Ok(m.sourceId) && Uuid.ToLower(m.sourceId) == m.sourceId
      ensures 0.0 <= m.value < 1000.0 && m.value == m.value.Floor as real
    {
      GeneratedIdsAreValid(c.packetSize, d, m);
    }
    assert p.measurements[0] in p.measurements;
  }

  lemma SentAfter(c: Config, s: State, step: Step)
    requires Enabled(c, s, step)
    ensures PoolAfter(c, s, step).sent == s.pool.sent + (if step.GenSend? then [s.gen.packet] else [])
    ensures PoolAfter(c, s, step).channelClosed == (s.pool.channelClosed || step.GenStop?)
  {
    hide B.Enabled, B.Apply, RepoAfter;
  }

  lemma StepGen(c: Config, s: State, step: Step)
    requires ValidConfig(c) && GenInv(c, s) && Enabled(c, s, step)
    ensures GenInv(c, Apply(c, s, step))
  {
    SentAfter(c, s, step);
    hide IsGenerated, B.Enabled, P.Enabled, ValidDraw, RepoAfter, PoolAfter, RepoStep, PoolStep;
    if step.Tick? {
      MadePacket(c, step.draw);
    }
  }

  /** The calls after a step of the repository. */
  lemma CallsAfter(c: B.Config, s: B.State, b: B.Step)
    requires B.Enabled(c, s, b)
    ensures !B.IsAdd(b) ==> B.Apply(c, s, b).calls == s.calls
    ensures b.AddEnter? ==> B.Apply(c, s, b).calls == s.calls[b.id := B.Entered(b.item)]
    ensures b.AddCheck? && !s.closed ==> B.Apply(c, s, b).calls == s.calls[b.id := B.Waiting(s.calls[b.id].item)]
    ensures B.IsAdd(b) && !b.AddEnter? ==> b.id in s.calls
    ensures B.IsAdd(b) && !b.AddEnter? && (b.AddCheck? ==> s.closed) ==> B.Apply(c, s, b).calls == s.calls - {b.id}
  { }

  lemma InAddCalls(c: Config, s: State, b: B.Step)
    requires CallsInv(s) && Enabled(c, s, InAdd(b))
    ensures CallsInv(Apply(c, s, InAdd(b)))
  {
    hide B.Enabled, B.Apply;
    CallsAfter(c.repo, s.repo, b);
  }

  lemma WorkCalls(c: Config, s: State, p: P.Step)
    requires CallsInv(s) && Enabled(c, s, Work(p))
    ensures CallsInv(Apply(c, s, Work(p)))
  {
    if ScanEnds(s, p) {
      CallsAfter(c.repo, s.repo, RepoStep(s, Work(p)).value);
    }
    hide B.Enabled, B.Apply;
  }

  lemma StepCalls(c: Config, s: State, step: Step)
    requires CallsInv(s) && Enabled(c, s, step)
    ensures CallsInv(Apply(c, s, step))
  {
    if step.InAdd? {
      InAddCalls(c, s, step.b);
    } else if step.Work? {
      WorkCalls(c, s, step.p);
    } else {
      if RepoStep(s, step).Some? {
        CallsAfter(c.repo, s.repo, RepoStep(s, step).value);
      }
      hide B.Enabled, B.Apply;
      assert Apply(c, s, step).repo.calls == s.repo.calls;
      assert Apply(c, s, step).pool.workers == s.pool.workers;
    }
  }

  lemma StoredSnoc(jobs: seq<P.Job>, job: P.Job)
    ensures StoredItems(jobs + [job]) == StoredItems(jobs) + [job.item]
  { }

  /** The logs after a step of the repository. */
  lemma LogsAfter(c: B.Config, s: B.State, b: B.Step)
    requires B.Enabled(c, s, b)
    ensures var r := B.Apply(c, s, b).log;
      && r.accepted == (if b.AddSend? then s.log.accepted + [s.calls[b.id].item] else s.log.accepted)
      && r.refused == (if b.AddInvalid? || b.AddCancelled? || b.AddStopped? || (b.AddCheck? && s.closed)
                       then s.log.refused + [s.calls[b.id].item] else s.log.refused)
      && r.attempts == (if b.WriteNext?
                        then s.log.attempts + [Attempt(s.consumer.batch[s.consumer.pc.next], b.plan)]
                        else s.log.attempts)
  { }

  /** The Add logs of the pool after a step. */
  lemma PoolLogsAfter(c: Config, s: State, step: Step)
    requires Enabled(c, s, step)
    ensures var p, r := PoolStep(s, step), PoolAfter(c, s, step);
      if p.Some? && p.value.AddReturns? then
        var item := s.pool.workers[p.value.w].item;
        && StoredItems(r.stored) == StoredItems(s.pool.stored) + (if p.value.ok then [item] else [])
        && StoredItems(r.refused) == StoredItems(s.pool.refused) + (if p.value.ok then [] else [item])
      else r.stored == s.pool.stored && r.refused == s.pool.refused
    ensures PoolAfter(c, s, step).cancelled == (s.pool.cancelled || step.Cancel?)
  {
    hide B.Enabled, B.Apply;
    var p := PoolStep(s, step);
    if p.Some? && p.value.AddReturns? {
      var job := P.Job(s.pool.workers[p.value.w].packet, s.pool.workers[p.value.w].item);
      StoredSnoc(s.pool.stored, job);
      StoredSnoc(s.pool.refused, job);
    }
  }

  lemma StepLogs(c: Config, s: State, step: Step)
    requires LogsInv(s) && CallsInv(s) && Enabled(c, s, step)
    ensures LogsInv(Apply(c, s, step))
  {
    PoolLogsAfter(c, s, step);
    ApplyComponents(c, s, step);
    hide Apply, PoolAfter, StoredItems, ValidDraw, ScanEnds, P.Finished;
    if RepoStep(s, step).Some? {
      LogsAfter(c.repo, s.repo, RepoStep(s, step).value);
    }
    hide B.Enabled, B.Apply, P.Enabled;
  }

  /** main steps in its order, and every other component leaves what main relies on. */
  lemma ClosingAfter(c: B.Config, s: B.State, b: B.Step)
    requires B.Enabled(c, s, b)
    ensures !B.IsClose(b) ==> var r := B.Apply(c, s, b);
      r.closing == s.closing && r.closed == s.closed && r.log.mark == s.log.mark
    ensures b.CloseEnter? ==> var r := B.Apply(c, s, b);
      && r.closing == s.closing.(callers := s.closing.callers[b.id := B.Entering],
                                 overlapped := s.closing.overlapped || s.closing.callers != map[])
      && r.closed == s.closed && r.log.mark == s.log.mark
    ensures b.CloseLock? || b.CloseJoined? || b.CloseOnce? ==> var r := B.Apply(c, s, b);
      && b.id in s.closing.callers
      && r.closing.callers.Keys == s.closing.callers.Keys - (if b.CloseOnce? then {b.id} else {})
      && r.closing.completed == s.closing.completed + (if b.CloseOnce? then 1 else 0)
      && r.closing.overlapped == s.closing.overlapped
      && (r.log.mark == s.log.mark || (r.log.mark.Some? && r.log.mark.value.waiting == |B.Waiters(s.calls)|))
  { }

  /** When the pool has returned, no Add is under way. */
  lemma NoCallsAfterPool(s: State)
    requires CallsInv(s) && P.Finished(s.pool)
    ensures s.repo.calls == map[] && B.Waiters(s.repo.calls) == {}
  {
    assert forall w :: w !in s.repo.calls;
  }

  lemma FinishedStays(c: Config, s: State, step: Step)
    requires P.Finished(s.pool) && CallsInv(s) && s.gen.Exited? && Enabled(c, s, step)
    ensures Apply(c, s, step).pool == s.pool || step.Cancel?
    ensures Apply(c, s, step).gen.Exited? && P.Finished(Apply(c, s, step).pool)
  {
    NoCallsAfterPool(s);
    if step.InAdd? {
      CallsAfter(c.repo, s.repo, step.b);
    }
    hide B.Enabled, B.Apply;
  }

  lemma StepMain(c: Config, s: State, step: Step)
    requires MainInv(s) && CallsInv(s) && Enabled(c, s, step)
    ensures MainInv(Apply(c, s, step))
  {
    if s.main.Closing? || s.main.Returned? {
      NoCallsAfterPool(s);
      FinishedStays(c, s, step);
    }
    PoolLogsAfter(c, s, step);
    if RepoStep(s, step).Some? {
      ClosingAfter(c.repo, s.repo, RepoStep(s, step).value);
    }
    ApplyComponents(c, s, step);
    hide B.Enabled, B.Apply, P.Apply, P.Enabled, StoredItems, CallsInv, PoolAfter;
  }

  /** A worker's item is valid: Add never rejects generated data. */
  lemma ItemIsValid(c: Config, s: State, w: nat)
    requires ValidConfig(c) && P.Inv(s.pool) && GenInv(c, s) && w < |s.pool.workers| && s.pool.workers[w].Adding?
    ensures B.ValidatePacketMax(s.pool.workers[w].item).Ok?
    ensures s.pool.workers[w].item.packetId == s.pool.workers[w].packet.id
  {
    hide Uuid.ParseUuid, Uuid.ToLower;
    var v := s.pool.workers[w];
    assert P.WorkerInv(v);
    P.InHands(s.pool.workers, w);
    assert v.packet in P.Hands(s.pool.workers);
    assert v.packet in multiset(s.pool.taken);
    assert v.packet in s.generated;
    var k := MaxOfIsEarliestGreatest(v.packet.measurements);
    assert v.packet.measurements[k] in v.packet.measurements;
    Uuid.EmptyIsNoUuid();
  }

  lemma StepKeeps(c: Config, s: State, step: Step)
    requires Inv(c, s) && Enabled(c, s, step)
    ensures KeepsInv(Apply(c, s, step))
  {
    PoolLogsAfter(c, s, step);
    if step.InAdd? && Resolves(s, step.b) && !s.pool.cancelled {
      RefusedOnlyAfterCancel(c, s, step.b);
    }
    hide B.Enabled, B.Apply, P.Apply, B.Inv, P.Inv, StoredItems, GenInv;
  }

  lemma RefusedOnlyAfterCancel(c: Config, s: State, b: B.Step)
    requires Inv(c, s) && Enabled(c, s, InAdd(b)) && Resolves(s, b) && !s.pool.cancelled
    ensures b.AddSend?
  {
    CallsAfter(c.repo, s.repo, b);
    ItemIsValid(c, s, b.id);
    hide P.Inv, B.Inv, B.Apply, B.ValidatePacketMax;
  }

  lemma StepInv(c: Config, s: State, step: Step)
    requires Inv(c, s) && Enabled(c, s, step)
    ensures Inv(c, Apply(c, s, step))
  {
    StepComponents(c, s, step);
    StepGen(c, s, step);
    StepCalls(c, s, step);
    StepLogs(c, s, step);
    StepMain(c, s, step);
    StepKeeps(c, s, step);
    ApplyComponents(c, s, step);
    hide Apply, Enabled, P.Inv, B.Inv, GenInv, CallsInv, LogsInv, MainInv, KeepsInv, PoolAfter, RepoAfter;
  }

  lemma ApplyComponents(c: Config, s: State, step: Step)
    requires Enabled(c, s, step)
    ensures Apply(c, s, step).pool == PoolAfter(c, s, step)
    ensures Apply(c, s, step).repo == RepoAfter(c, s, step)
  {
    hide PoolAfter, RepoAfter, Enabled;
  }

  /** The invariant holds after every run. */
  lemma {:induction false} RunInv(c: Config, s: State, steps: seq<Step>, t: State)
    requires Inv(c, s) && Runs(c, s, steps, t)
    ensures Inv(c, t)
    decreases |steps|
  {
    hide Inv;
    if steps != [] {
      StepInv(c, s, steps[0]);
      RunInv(c, Apply(c, s, steps[0]), steps[1..], t);
    }
  }
}
