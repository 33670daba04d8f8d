/** The repository as a concurrent protocol: any number of Add and Close callers, the consumer
    loop, its timer and the clock (app/src/database/postgres.go). One step is one atomic action
    of one process; every select is a choice between the steps that are ready. */
module Batcher {
  import opened Domain
  import opened PacketTable
  import Uuid

  datatype Config = Config(batchSize: nat, batchTimeout: nat, bufferSize: nat)

  predicate ValidConfig(c: Config) { c.batchSize >= 1 && c.bufferSize >= 1 }

  /** The defaults New applies. */
  function Normalise(batchSize: int, batchTimeout: int, bufferSize: int): (c: Config)
    ensures ValidConfig(c)
    ensures batchSize >= 1 ==> c.batchSize == batchSize
    ensures batchSize < 1 ==> c.batchSize == 1
    ensures bufferSize >= 1 ==> c.bufferSize == bufferSize
    ensures bufferSize < 1 ==> c.bufferSize == c.batchSize
    ensures batchTimeout >= 1 ==> c.batchTimeout == batchTimeout
    ensures batchTimeout < 1 ==> c.batchTimeout == 0
  {
    var size := if batchSize <= 0 then 1 else batchSize;
    Config(size, if batchTimeout < 0 then 0 else batchTimeout, if bufferSize <= 0 then size else bufferSize)
  }

  function ValidatePacketMax(p: PacketMax): Result<(), string> {
    if p.packetId == "" then Err("packet id is required")
    else if Uuid.ParseUuid(p.packetId).Err? then Err("invalid packet id")
    else if p.sourceId == "" then Err("source id is required")
    else if Uuid.ParseUuid(p.sourceId).Err? then Err("invalid source id")
    else Ok(())
  }

  /** Add accepts exactly the items whose two identifiers have the 8-4-4-4-12 form, and otherwise names
      the first field that is missing or malformed. */
  lemma ValidationRejects(p: PacketMax)
    ensures ValidatePacketMax(p).Ok? <==> Uuid.HexForm(p.packetId) && Uuid.HexForm(p.sourceId)
    ensures ValidatePacketMax(p) == Err("packet id is required") <==> p.packetId == ""
    ensures ValidatePacketMax(p) == Err("invalid packet id") <==> p.packetId != "" && !Uuid.HexForm(p.packetId)
    ensures ValidatePacketMax(p) == Err("source id is required") <==> Uuid.HexForm(p.packetId) && p.sourceId == ""
    ensures ValidatePacketMax(p) == Err("invalid source id")
       <==> Uuid.HexForm(p.packetId) && p.sourceId != "" && !Uuid.HexForm(p.sourceId)
  {
    Uuid.ParseAcceptsHexFormOnly(p.packetId);
    Uuid.ParseAcceptsHexFormOnly(p.sourceId);
    hide Uuid.ParseUuid;
  }

  // ---------------------------------------------------------------- state

  /** A one-shot timer: running, with its tick waiting in the channel, or with the tick taken. */
  datatype Timer = Armed(deadline: nat) | Ticked | Spent

  datatype Reason = Size | Timeout | Final

  /** Where the consumer is. In Flushing, `next` items of the batch have been attempted. */
  datatype ConsumerPc = Selecting | Draining | Flushing(reason: Reason, next: nat, draining: bool) | Exited

  datatype Consumer = Consumer(pc: ConsumerPc, batch: seq<PacketMax>, timer: Option<Timer>, first: Option<nat>)

  /** An Add call before and after it has read `closed`. */
  datatype Call = Entered(item: PacketMax) | Waiting(item: PacketMax)

  /** A Close call: entered; the first one, waiting for the consumer; before closeOnce. */
  datatype Closer = Entering | Joining | AtOnce(first: bool)

  datatype Closing = Closing(callers: map<nat, Closer>, onceDone: bool,
                             stopCloses: nat, runnerCloses: nat, completed: nat, overlapped: bool)

  datatype Flush = Flush(reason: Reason, items: seq<PacketMax>)

  /** What had been accepted, and how many Adds were past their check, when stopCh closed. */
  datatype Mark = Mark(accepted: nat, waiting: nat)

  /** History: what Add accepted and refused, in order; the flushes; the attempted writes. */
  datatype Log = Log(accepted: seq<PacketMax>, refused: seq<PacketMax>, flushes: seq<Flush>,
                     attempts: seq<Attempt>, mark: Option<Mark>, lateWrites: nat)

  datatype State = State(now: nat, buffer: seq<PacketMax>, closed: bool, consumer: Consumer,
                         calls: map<nat, Call>, closing: Closing, table: Table, log: Log)

  function Init(table: Table): State {
    State(0, [], false, Consumer(Selecting, [], None, None), map[],
          Closing(map[], false, 0, 0, 0, false), table, Log([], [], [], [], None, 0))
  }

  // ---------------------------------------------------------------- consumer closures

  /** activateTimer: a new timer, or the old one stopped, drained and reset. */
  function ActivateTimer(c: Config, timer: Option<Timer>, at: nat): Option<Timer> {
    if c.batchTimeout == 0 then timer else Some(Armed(at + c.batchTimeout))
  }

  /** appendToBatch up to its flush: `at` is when the item arrived, `lag` passes before the timer
      starts. */
  function Append(c: Config, k: Consumer, item: PacketMax, at: nat, lag: nat): Consumer {
    if k.batch == [] then
      k.(batch := [item], first := Some(at), timer := ActivateTimer(c, k.timer, at + lag))
    else
      k.(batch := k.batch + [item])
  }

  /** Where the consumer goes on after a flush. */
  function Resume(reason: Reason, draining: bool): ConsumerPc {
    if reason.Final? then Exited else if draining then Draining else Selecting
  }

  /** flush: nothing for an empty batch, otherwise the batch goes to processBatch. */
  function StartFlush(s: State, reason: Reason, draining: bool): State {
    if s.consumer.batch == [] then s.(consumer := s.consumer.(pc := Resume(reason, draining)))
    else s.(consumer := s.consumer.(pc := Flushing(reason, 0, draining)),
            log := s.log.(flushes := s.log.flushes + [Flush(reason, s.consumer.batch)]))
  }

  // ---------------------------------------------------------------- steps

  datatype Step =
    | AddEnter(id: nat, item: PacketMax) | AddInvalid(id: nat) | AddCancelled(id: nat) | AddCheck(id: nat)
    | AddSend(id: nat) | AddStopped(id: nat)
    | Receive(lag: nat) | TimedOut | Stop | Finish | WriteNext(plan: Plan) | EndFlush
    | CloseEnter(id: nat) | CloseLock(id: nat) | CloseJoined(id: nat) | CloseOnce(id: nat)
    | Elapse(time: nat) | TimerFires

  predicate IsAdd(step: Step) {
    step.AddEnter? || step.AddInvalid? || step.AddCancelled? || step.AddCheck? || step.AddSend? || step.AddStopped?
  }

  predicate IsConsume(step: Step) {
    step.Receive? || step.TimedOut? || step.Stop? || step.Finish? || step.WriteNext? || step.EndFlush?
  }

  predicate IsClose(step: Step) {
    step.CloseEnter? || step.CloseLock? || step.CloseJoined? || step.CloseOnce?
  }

  predicate CallIs(s: State, id: nat, waiting: bool) {
    id in s.calls && s.calls[id].Waiting? == waiting
  }

  predicate AddEnabled(c: Config, s: State, step: Step)
    requires IsAdd(step)
  {
    match step
    case AddEnter(id, item) => id !in s.calls
    case AddInvalid(id) => CallIs(s, id, false) && ValidatePacketMax(s.calls[id].item).Err?
    case AddCancelled(id) => CallIs(s, id, true) || (CallIs(s, id, false) && ValidatePacketMax(s.calls[id].item).Ok?)
    case AddCheck(id) => CallIs(s, id, false) && ValidatePacketMax(s.calls[id].item).Ok?
    case AddSend(id) => CallIs(s, id, true) && |s.buffer| < c.bufferSize
    case AddStopped(id) => CallIs(s, id, true) && s.closed
  }

  predicate ConsumeEnabled(s: State, step: Step)
    requires IsConsume(step)
  {
    var pc := s.consumer.pc;
    match step
    case Receive(_) => (pc.Selecting? || pc.Draining?) && s.buffer != []
    case TimedOut => pc.Selecting? && s.consumer.timer == Some(Ticked)
    case Stop => pc.Selecting? && s.closed
    case Finish => pc.Draining? && s.buffer == []
    case WriteNext(_) => pc.Flushing? && pc.next < |s.consumer.batch|
    case EndFlush => pc.Flushing? && pc.next == |s.consumer.batch|
  }

  predicate CloseEnabled(s: State, step: Step)
    requires IsClose(step)
  {
    var callers := s.closing.callers;
    match step
    case CloseEnter(id) => id !in callers
    case CloseLock(id) => id in callers && callers[id].Entering?
    case CloseJoined(id) => id in callers && callers[id].Joining? && s.consumer.pc.Exited?
    case CloseOnce(id) => id in callers && callers[id].AtOnce?
  }

  predicate Enabled(c: Config, s: State, step: Step) {
    if IsAdd(step) then AddEnabled(c, s, step)
    else if IsConsume(step) then ConsumeEnabled(s, step)
    else if IsClose(step) then CloseEnabled(s, step)
    else if step.TimerFires? then
      s.consumer.timer.Some? && s.consumer.timer.value.Armed? && s.consumer.timer.value.deadline <= s.now
    else true
  }

  function Refuse(s: State, id: nat): State
    requires id in s.calls
  {
    s.(calls := s.calls - {id}, log := s.log.(refused := s.log.refused + [s.calls[id].item]))
  }

  function AddApply(c: Config, s: State, step: Step): State
    requires IsAdd(step) && AddEnabled(c, s, step)
  {
    match step
    case AddEnter(id, item) => s.(calls := s.calls[id := Entered(item)])
    case AddInvalid(id) => Refuse(s, id)
    case AddCancelled(id) => Refuse(s, id)
    case AddCheck(id) =>
      if s.closed then Refuse(s, id) else s.(calls := s.calls[id := Waiting(s.calls[id].item)])
    case AddSend(id) =>
      s.(calls := s.calls - {id}, buffer := s.buffer + [s.calls[id].item],
         log := s.log.(accepted := s.log.accepted + [s.calls[id].item]))
    case AddStopped(id) => Refuse(s, id)
  }

  function ConsumeApply(c: Config, s: State, step: Step): State
    requires IsConsume(step) && ConsumeEnabled(s, step)
  {
    var k := s.consumer;
    match step
    case Receive(lag) =>
      var appended := s.(now := s.now + lag, buffer := s.buffer[1..],
                         consumer := Append(c, k, s.buffer[0], s.now, lag));
      if |appended.consumer.batch| >= c.batchSize then StartFlush(appended, Size, k.pc.Draining?) else appended
    case TimedOut => StartFlush(s.(consumer := k.(timer := Some(Spent))), Timeout, false)
    case Stop => s.(consumer := k.(pc := Draining))
    case Finish => StartFlush(s, Final, true)
    case WriteNext(plan) =>
      var item := k.batch[k.pc.next];
      s.(table := Write(s.table, item, plan).table,
         consumer := k.(pc := k.pc.(next := k.pc.next + 1)),
         log := s.log.(attempts := s.log.attempts + [Attempt(item, plan)],
                       lateWrites := s.log.lateWrites + (if s.closing.onceDone then 1 else 0)))
    case EndFlush => s.(consumer := Consumer(Resume(k.pc.reason, k.pc.draining), [], None, None))
  }

  function Waiters(calls: map<nat, Call>): set<nat> {
    set id | id in calls && calls[id].Waiting?
  }

  function CloseApply(s: State, step: Step): State
    requires IsClose(step) && CloseEnabled(s, step)
  {
    var g := s.closing;
    match step
    case CloseEnter(id) =>
      s.(closing := g.(callers := g.callers[id := Entering], overlapped := g.overlapped || g.callers != map[]))
    case CloseLock(id) =>
      if s.closed then s.(closing := g.(callers := g.callers[id := AtOnce(false)]))
      else
        s.(closed := true,
           closing := g.(callers := g.callers[id := Joining], stopCloses := g.stopCloses + 1),
           log := s.log.(mark := Some(Mark(|s.log.accepted|, |Waiters(s.calls)|))))
    case CloseJoined(id) => s.(closing := g.(callers := g.callers[id := AtOnce(true)]))
    case CloseOnce(id) =>
      s.(closing := g.(callers := g.callers - {id}, completed := g.completed + 1, onceDone := true,
                       runnerCloses := g.runnerCloses + (if g.onceDone then 0 else 1)))
  }

  function Apply(c: Config, s: State, step: Step): State
    requires Enabled(c, s, step)
  {
    if IsAdd(step) then AddApply(c, s, step)
    else if IsConsume(step) then ConsumeApply(c, s, step)
    else if IsClose(step) then CloseApply(s, step)
    else if step.TimerFires? then s.(consumer := s.consumer.(timer := Some(Ticked)))
    else s.(now := s.now + step.time)
  }

  /** steps lead from s to t. */
  predicate Runs(c: Config, s: State, steps: seq<Step>, t: State)
    decreases |steps|
  {
    if steps == [] then s == t
    else Enabled(c, s, steps[0]) && Runs(c, Apply(c, s, steps[0]), steps[1..], t)
  }

  // ---------------------------------------------------------------- invariant

  function Concat(flushes: seq<Flush>): seq<PacketMax> {
    if flushes == [] then [] else Concat(flushes[..|flushes| - 1]) + flushes[|flushes| - 1].items
  }

  /** Received but not yet handed to a flush. */
  function Pending(k: Consumer): seq<PacketMax> {
    if k.pc.Flushing? then [] else k.batch
  }

  /** Handed to a flush but not yet attempted. */
  function Unwritten(k: Consumer): seq<PacketMax> {
    if k.pc.Flushing? && k.pc.next <= |k.batch| then k.batch[k.pc.next..] else []
  }

  predicate TimerInv(c: Config, k: Consumer, now: nat) {
    && (k.first.Some? <==> k.batch != [])
    && (k.timer.Some? <==> c.batchTimeout > 0 && k.batch != [])
    && (k.first.Some? ==> k.first.value <= now)
    && (k.timer.Some? ==>
         match k.timer.value
         case Armed(deadline) => k.first.value + c.batchTimeout <= deadline <= now + c.batchTimeout
         case Ticked => now >= k.first.value + c.batchTimeout
         case Spent => k.pc.Flushing? && k.pc.reason.Timeout?)
  }

  predicate BatchInv(c: Config, k: Consumer) {
    match k.pc
    case Selecting => |k.batch| < c.batchSize
    case Draining => |k.batch| < c.batchSize
    case Flushing(reason, next, _) =>
      next <= |k.batch| && 1 <= |k.batch| <= c.batchSize && (reason.Size? <==> |k.batch| == c.batchSize)
    case Exited => k.batch == []
  }

  /** Size flushes are full; timeout and final flushes are partial and never empty. */
  predicate FlushSizes(c: Config, flushes: seq<Flush>) {
    forall f :: f in flushes ==>
      if f.reason.Size? then |f.items| == c.batchSize else 1 <= |f.items| < c.batchSize
  }

  /** Nothing is lost, repeated or reordered between Add and the database. */
  predicate FlowInv(s: State) {
    && s.log.accepted == Concat(s.log.flushes) + Pending(s.consumer) + s.buffer
    && Concat(s.log.flushes) == Items(s.log.attempts) + Unwritten(s.consumer)
  }

  /** The consumer has found the buffer empty after the stop, and will not look again. */
  predicate Finished(pc: ConsumerPc) { pc.Exited? || (pc.Flushing? && pc.reason.Final?) }

  predicate StopInv(c: Config, s: State) {
    var pc := s.consumer.pc;
    && |s.buffer| <= c.bufferSize
    && (s.closed <==> s.log.mark.Some?)
    && (pc.Draining? || Finished(pc) || (pc.Flushing? && pc.draining) ==> s.closed)
    && (s.closed ==>
         var mark := s.log.mark.value;
         && mark.accepted <= |s.log.accepted|
         && |s.log.accepted| + |Waiters(s.calls)| <= mark.accepted + mark.waiting
         && (Finished(pc) ==> mark.accepted + |s.buffer| <= |s.log.accepted|))
  }

  predicate IsFirst(closer: Closer) { closer.Joining? || (closer.AtOnce? && closer.first) }

  predicate CloseInv(s: State) {
    var g := s.closing;
    && g.stopCloses == (if s.closed then 1 else 0)
    && g.runnerCloses == (if g.onceDone then 1 else 0)
    && (g.completed > 0 <==> g.onceDone)
    && (g.onceDone ==> s.closed)
    && (s.closed && !g.onceDone ==> exists id :: id in g.callers && IsFirst(g.callers[id]))
    && (forall id :: id in g.callers && !g.callers[id].Entering? ==> s.closed)
    && (forall id :: id in g.callers && g.callers[id] == AtOnce(true) ==> s.consumer.pc.Exited?)
    && (!g.overlapped ==> |g.callers| <= 1 && s.log.lateWrites == 0 && (g.onceDone ==> s.consumer.pc.Exited?))
  }

  predicate Inv(c: Config, t0: Table, s: State) {
    && ValidConfig(c)
    && TimerInv(c, s.consumer, s.now)
    && BatchInv(c, s.consumer)
    && FlushSizes(c, s.log.flushes)
    && FlowInv(s)
    && s.table == Replay(t0, s.log.attempts)
    && StopInv(c, s)
    && CloseInv(s)
  }

  // ---------------------------------------------------------------- preservation

  lemma InitInv(c: Config, t0: Table)
    requires ValidConfig(c)
    ensures Inv(c, t0, Init(t0))
  { }

  lemma ConcatSnoc(flushes: seq<Flush>, f: Flush)
    ensures Concat(flushes + [f]) == Concat(flushes) + f.items
  {
    assert (flushes + [f])[..|flushes|] == flushes;
  }

  lemma StartFlushInv(c: Config, s: State, reason: Reason, draining: bool)
    requires ValidConfig(c) && !s.consumer.pc.Flushing?
    requires FlushSizes(c, s.log.flushes) && FlowInv(s)
    requires if reason.Size? then |s.consumer.batch| == c.batchSize else |s.consumer.batch| < c.batchSize
    requires reason.Timeout? ==> s.consumer.batch != []
    ensures var r := StartFlush(s, reason, draining);
      FlowInv(r) && FlushSizes(c, r.log.flushes) && BatchInv(c, r.consumer)
  {
    var k := s.consumer;
    if k.batch != [] {
      var f := Flush(reason, k.batch);
      ConcatSnoc(s.log.flushes, f);
      assert k.batch[0..] == k.batch;
      assert Concat(s.log.flushes) + k.batch + s.buffer == Concat(s.log.flushes) + k.batch + [] + s.buffer;
    }
  }

  lemma ReceiveFlow(c: Config, s: State, lag: nat)
    requires ValidConfig(c) && BatchInv(c, s.consumer) && FlushSizes(c, s.log.flushes) && FlowInv(s)
    requires ConsumeEnabled(s, Receive(lag))
    ensures var r := ConsumeApply(c, s, Receive(lag));
      FlowInv(r) && FlushSizes(c, r.log.flushes) && BatchInv(c, r.consumer)
  {
    var k, item := s.consumer, s.buffer[0];
    var appended := s.(now := s.now + lag, buffer := s.buffer[1..], consumer := Append(c, k, item, s.now, lag));
    assert s.buffer == [item] + s.buffer[1..];
    assert appended.consumer.batch == k.batch + [item];
    assert FlowInv(appended) by {
      var done := Concat(s.log.flushes);
      assert done + k.batch + ([item] + s.buffer[1..]) == done + (k.batch + [item]) + s.buffer[1..];
    }
    if |appended.consumer.batch| >= c.batchSize {
      StartFlushInv(c, appended, Size, k.pc.Draining?);
    }
  }

  lemma WriteFlow(c: Config, s: State, plan: Plan)
    requires BatchInv(c, s.consumer) && FlowInv(s)
    requires ConsumeEnabled(s, WriteNext(plan))
    ensures FlowInv(ConsumeApply(c, s, WriteNext(plan)))
  {
    hide Write, StopInv, CloseInv, Concat;
    var k, attempts := s.consumer, s.log.attempts;
    var item, rest := k.batch[k.pc.next], k.batch[k.pc.next + 1..];
    assert k.batch[k.pc.next..] == [item] + rest;
    assert Items(attempts + [Attempt(item, plan)]) == Items(attempts) + [item];
    Regroup(Items(attempts), item, rest);
  }

  lemma Regroup(front: seq<PacketMax>, item: PacketMax, rest: seq<PacketMax>)
    ensures front + ([item] + rest) == front + [item] + rest
  { }

  lemma ConsumeFlow(c: Config, s: State, step: Step)
    requires ValidConfig(c) && BatchInv(c, s.consumer) && FlushSizes(c, s.log.flushes) && FlowInv(s)
    requires TimerInv(c, s.consumer, s.now)
    requires IsConsume(step) && ConsumeEnabled(s, step)
    ensures var r := ConsumeApply(c, s, step);
      FlowInv(r) && FlushSizes(c, r.log.flushes) && BatchInv(c, r.consumer)
  {
    match step {
      case Receive(lag) => ReceiveFlow(c, s, lag);
      case TimedOut => StartFlushInv(c, s.(consumer := s.consumer.(timer := Some(Spent))), Timeout, false);
      case Stop =>
      case Finish => StartFlushInv(c, s, Final, true);
      case WriteNext(plan) => WriteFlow(c, s, plan);
      case EndFlush =>
    }
  }

  lemma StepFlow(c: Config, s: State, step: Step)
    requires ValidConfig(c) && BatchInv(c, s.consumer) && FlushSizes(c, s.log.flushes) && FlowInv(s)
    requires TimerInv(c, s.consumer, s.now)
    requires Enabled(c, s, step)
    ensures var r := Apply(c, s, step);
      FlowInv(r) && FlushSizes(c, r.log.flushes) && BatchInv(c, r.consumer)
  {
    if IsConsume(step) {
      ConsumeFlow(c, s, step);
    } else if step.AddSend? {
      var front := Concat(s.log.flushes) + Pending(s.consumer);
      assert front + s.buffer + [s.calls[step.id].item] == front + (s.buffer + [s.calls[step.id].item]);
    }
  }

  lemma ConsumeTimer(c: Config, s: State, step: Step)
    requires ValidConfig(c) && BatchInv(c, s.consumer) && TimerInv(c, s.consumer, s.now)
    requires IsConsume(step) && ConsumeEnabled(s, step)
    ensures TimerInv(c, ConsumeApply(c, s, step).consumer, ConsumeApply(c, s, step).now)
  {
    hide Write;
  }

  lemma StepTimer(c: Config, s: State, step: Step)
    requires ValidConfig(c) && BatchInv(c, s.consumer) && TimerInv(c, s.consumer, s.now)
    requires Enabled(c, s, step)
    ensures TimerInv(c, Apply(c, s, step).consumer, Apply(c, s, step).now)
  {
    if IsConsume(step) {
      ConsumeTimer(c, s, step);
    }
    hide ConsumeApply, ConsumeEnabled, BatchInv;
  }

  lemma StepTable(c: Config, t0: Table, s: State, step: Step)
    requires s.table == Replay(t0, s.log.attempts)
    requires Enabled(c, s, step)
    ensures Apply(c, s, step).table == Replay(t0, Apply(c, s, step).log.attempts)
  {
    if step.WriteNext? {
      var attempts := Apply(c, s, step).log.attempts;
      assert attempts[..|attempts| - 1] == s.log.attempts;
    }
  }

  lemma WaitersAfterAdd(c: Config, s: State, step: Step)
    requires IsAdd(step) && AddEnabled(c, s, step)
    ensures var r := AddApply(c, s, step);
      |r.log.accepted| + |Waiters(r.calls)|
      <= |s.log.accepted| + |Waiters(s.calls)| + (if step.AddCheck? && !s.closed then 1 else 0)
    ensures |AddApply(c, s, step).log.accepted| - |AddApply(c, s, step).buffer| == |s.log.accepted| - |s.buffer|
  {
    var r := AddApply(c, s, step);
    var before, after, id := Waiters(s.calls), Waiters(r.calls), step.id;
    if step.AddEnter? {
      assert after == before;
    } else if step.AddCheck? && !s.closed {
      assert after == before + {id};
    } else {
      assert after == before - {id};
      if CallIs(s, id, true) {
        assert id in before;
      }
    }
  }

  lemma ConsumeStop(c: Config, s: State, step: Step)
    requires StopInv(c, s) && IsConsume(step) && ConsumeEnabled(s, step)
    ensures StopInv(c, ConsumeApply(c, s, step))
  {
    hide Write, Waiters, ActivateTimer;
  }

  lemma StepStop(c: Config, s: State, step: Step)
    requires StopInv(c, s) && Enabled(c, s, step)
    ensures StopInv(c, Apply(c, s, step))
  {
    if IsConsume(step) {
      ConsumeStop(c, s, step);
      hide ConsumeApply, ConsumeEnabled, StopInv;
    } else if IsAdd(step) {
      WaitersAfterAdd(c, s, step);
    }
  }

  lemma CallersAfter(m: map<nat, Closer>, id: nat, v: Closer)
    ensures |m[id := v]| == |m| + (if id in m then 0 else 1)
    ensures id in m ==> |m - {id}| == |m| - 1
  {
    assert m[id := v].Keys == m.Keys + {id};
    assert (m - {id}).Keys == m.Keys - {id};
  }

  lemma TwoCallers(m: map<nat, Closer>, a: nat, b: nat)
    requires a in m && b in m && a != b
    ensures |m| > 1
  {
    SetOfTwo(m.Keys, a, b);
  }

  /** The first closer stays until closeOnce is done. */
  lemma FirstStays(s: State, step: Step)
    requires CloseInv(s) && s.closed && !s.closing.onceDone
    requires (step.CloseEnter? || step.CloseLock?) && CloseEnabled(s, step)
    ensures var g := CloseApply(s, step).closing; exists id :: id in g.callers && IsFirst(g.callers[id])
  {
    var f :| f in s.closing.callers && IsFirst(s.closing.callers[f]);
    assert f in CloseApply(s, step).closing.callers && IsFirst(CloseApply(s, step).closing.callers[f]);
  }

  /** Without overlap, the caller that reaches closeOnce first is the first closer. */
  lemma OnceIsFirst(s: State, id: nat)
    requires CloseInv(s) && !s.closing.onceDone && !s.closing.overlapped
    requires CloseEnabled(s, CloseOnce(id))
    ensures s.closing.callers[id].first
  {
    var f :| f in s.closing.callers && IsFirst(s.closing.callers[f]);
    if f != id {
      TwoCallers(s.closing.callers, f, id);
    }
  }

  lemma EnterInv(s: State, id: nat)
    requires CloseInv(s) && CloseEnabled(s, CloseEnter(id))
    ensures CloseInv(CloseApply(s, CloseEnter(id)))
  {
    CallersAfter(s.closing.callers, id, Entering);
    if s.closed && !s.closing.onceDone {
      FirstStays(s, CloseEnter(id));
    }
  }

  lemma LockInv(s: State, id: nat)
    requires CloseInv(s) && CloseEnabled(s, CloseLock(id))
    ensures CloseInv(CloseApply(s, CloseLock(id)))
  {
    CallersAfter(s.closing.callers, id, CloseApply(s, CloseLock(id)).closing.callers[id]);
    if !s.closed {
      assert IsFirst(CloseApply(s, CloseLock(id)).closing.callers[id]);
    } else if !s.closing.onceDone {
      FirstStays(s, CloseLock(id));
    }
  }

  lemma JoinedInv(s: State, id: nat)
    requires CloseInv(s) && CloseEnabled(s, CloseJoined(id))
    ensures CloseInv(CloseApply(s, CloseJoined(id)))
  {
    CallersAfter(s.closing.callers, id, AtOnce(true));
    assert IsFirst(CloseApply(s, CloseJoined(id)).closing.callers[id]);
  }

  lemma OnceInv(s: State, id: nat)
    requires CloseInv(s) && CloseEnabled(s, CloseOnce(id))
    ensures CloseInv(CloseApply(s, CloseOnce(id)))
  {
    CallersAfter(s.closing.callers, id, Entering);
    if !s.closing.onceDone && !s.closing.overlapped {
      OnceIsFirst(s, id);
    }
  }

  lemma CloseStepInv(s: State, step: Step)
    requires CloseInv(s)
    requires IsClose(step) && CloseEnabled(s, step)
    ensures CloseInv(CloseApply(s, step))
  {
    match step {
      case CloseEnter(id) => EnterInv(s, id);
      case CloseLock(id) => LockInv(s, id);
      case CloseJoined(id) => JoinedInv(s, id);
      case CloseOnce(id) => OnceInv(s, id);
    }
    hide CloseInv, CloseApply, CloseEnabled;
  }

  lemma StepClose(c: Config, s: State, step: Step)
    requires CloseInv(s) && StopInv(c, s)
    requires Enabled(c, s, step)
    ensures CloseInv(Apply(c, s, step))
  {
    if IsClose(step) {
      CloseStepInv(s, step);
    } else {
      var r := Apply(c, s, step);
      assert r.closing == s.closing && r.closed == s.closed;
      assert s.consumer.pc.Exited? ==> r.consumer.pc.Exited?;
    }
  }

  lemma StepInv(c: Config, t0: Table, s: State, step: Step)
    requires Inv(c, t0, s) && Enabled(c, s, step)
    ensures Inv(c, t0, Apply(c, s, step))
  {
    StepFlow(c, s, step);
    StepTimer(c, s, step);
    StepTable(c, t0, s, step);
    StepStop(c, s, step);
    StepClose(c, s, step);
  }

  /** The invariant holds after every run. */
  lemma {:induction false} RunInv(c: Config, t0: Table, s: State, steps: seq<Step>, t: State)
    requires Inv(c, t0, s) && Runs(c, s, steps, t)
    ensures Inv(c, t0, t)
    decreases |steps|
  {
    if steps != [] {
      StepInv(c, t0, s, steps[0]);
      RunInv(c, t0, Apply(c, s, steps[0]), steps[1..], t);
    }
  }

  /** A run can be continued by one more step. */
  lemma {:induction false} RunsSnoc(c: Config, s: State, steps: seq<Step>, t: State, step: Step)
    requires Runs(c, s, steps, t) && Enabled(c, t, step)
    ensures Runs(c, s, steps + [step], Apply(c, t, step))
    decreases |steps|
  {
    if steps != [] {
      RunsSnoc(c, Apply(c, s, steps[0]), steps[1..], t, step);
      assert (steps + [step])[1..] == steps[1..] + [step];
    }
  }
}
