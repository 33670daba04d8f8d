/** The repository as imperative code (app/src/database/postgres.go): New, the two halves of Add, the
    locked part of Close, and the consumer goroutine with its closures. The ghost field `model` is
    the protocol state of the same moment and `trace` the protocol run that led to it: whatever the
    code does is a run of the protocol, so what holds of every run holds of the code. */
module Repository {
  import opened Domain
  import opened PacketTable
  import opened Batcher

  datatype AddChoice = TakeDone | TakeStop | TakeSend

  datatype Choice = PickStop | PickBuffer | PickTimeout

  /** What other goroutines, the clock and the timer do between two actions of the consumer. */
  datatype Event =
    | AddCalled(id: nat, item: PacketMax, cancelled: bool)
    | AddSelects(id: nat, cancelled: bool, choice: AddChoice)
    | CloseCalled
    | Elapsed(time: nat)
    | TimerFired

  /** How a flush goes: what happens before each of its writes, and how the statements fare. */
  datatype Writes = Writes(events: nat -> seq<Event>, plans: nat -> Plan)

  /** One turn of the consumer loop: what happens first, which ready case the select takes, how long
      the timer start lags, and how a flush goes. */
  datatype Turn = Turn(events: seq<Event>, choice: Choice, lag: nat, writes: Writes)

  /** Nothing else happens during the writes of the flush. */
  ghost predicate Quiet(writes: Writes) { forall i :: writes.events(i) == [] }

  ghost predicate AllQuiet(turns: seq<Turn>) {
    forall i :: 0 <= i < |turns| ==> turns[i].events == [] && Quiet(turns[i].writes)
  }

  /** How many items the consumer has received. */
  function Received(s: State): int { |s.log.accepted| - |s.buffer| }

  /** What the others may have done between s and t: they send to the buffer, close, and let time
      pass, but leave the consumer's batch and what it has done. */
  predicate Others(s: State, t: State) {
    && t.consumer.pc == s.consumer.pc && t.consumer.batch == s.consumer.batch && t.consumer.first == s.consumer.first
    && t.log.attempts == s.log.attempts && t.log.flushes == s.log.flushes
    && Gained(s, t)
  }

  /** Accepted items and the buffer only grow, and nothing is received. */
  predicate Gained(s: State, t: State) {
    && s.log.accepted <= t.log.accepted && s.buffer <= t.buffer && Received(t) == Received(s)
    && (s.closed ==> t.closed)
  }

  predicate Kept(s: State, t: State) {
    t.log.accepted == s.log.accepted && t.buffer == s.buffer && t.closed == s.closed
  }

  /** A flush of the items has been written, and the consumer has an empty batch and no timer. */
  predicate Flushed(s: State, t: State, flush: Batcher.Flush, plans: nat -> Plan) {
    && t.consumer == Consumer(s.consumer.pc, [], None, None)
    && t.log.flushes == s.log.flushes + [flush]
    && t.log.attempts == s.log.attempts + AttemptsOf(flush.items, plans)
  }

  /** A turn's select, from s to t: the chosen case is taken if it is ready. A stop starts the drain; a
      tick flushes the batch; the head of the buffer goes to the end of the batch, starting its time and
      its timer if it is the first, and the batch is flushed when it is full. */
  predicate Taken(c: Config, turn: Turn, s: State, t: State) {
    var k := s.consumer;
    match turn.choice
    case PickStop => t == if s.closed then s.(consumer := k.(pc := Draining)) else s
    case PickTimeout =>
      if k.timer == Some(Ticked) then
        Flushed(s, t, Batcher.Flush(Timeout, k.batch), turn.writes.plans) && s.buffer <= t.buffer
      else t == s
    case PickBuffer =>
      if s.buffer == [] then t == s
      else
        var items := k.batch + [s.buffer[0]];
        if |items| >= c.batchSize then
          Flushed(s, t, Batcher.Flush(Size, items), turn.writes.plans) && s.buffer[1..] <= t.buffer
        else
          && t.buffer == s.buffer[1..] && t.log == s.log && t.now == s.now + turn.lag
          && t.consumer.pc == k.pc && t.consumer.batch == items
          && t.consumer.first == (if k.batch == [] then Some(s.now) else k.first)
          && t.consumer.timer == (if k.batch != [] then k.timer
                                  else if c.batchTimeout > 0 then Some(Armed(t.now + c.batchTimeout)) else None)
  }

  /** The states of one turn: at its select, and after it. */
  datatype Moment = Moment(ready: State, done: State)

  /** The state from which turn i went on. */
  function Since(start: State, moments: seq<Moment>, i: nat): State
    requires i <= |moments|
  {
    if i == 0 then start else moments[i - 1].done
  }

  /** Each turn was taken, in order, and between two turns only the others acted. */
  predicate History(c: Config, turns: seq<Turn>, start: State, moments: seq<Moment>) {
    && |moments| <= |turns|
    && (forall i :: 0 <= i < |moments| ==> Taken(c, turns[i], moments[i].ready, moments[i].done))
    && (forall i :: 0 <= i < |moments| ==> Others(Since(start, moments, i), moments[i].ready))
  }

  lemma HistorySnoc(c: Config, turns: seq<Turn>, start: State, moments: seq<Moment>, next: Moment)
    requires History(c, turns, start, moments) && |moments| < |turns|
    requires Taken(c, turns[|moments|], next.ready, next.done)
    requires Others(Since(start, moments, |moments|), next.ready)
    ensures History(c, turns, start, moments + [next])
  {
    hide Taken, Others;
    var longer := moments + [next];
    forall i | 0 <= i < |longer|
      ensures Taken(c, turns[i], longer[i].ready, longer[i].done)
      ensures Others(Since(start, longer, i), longer[i].ready)
    {
      if i < |moments| {
        assert longer[i] == moments[i];
        assert Since(start, longer, i) == Since(start, moments, i);
      }
    }
  }

  class Repository {
    const cfg: Config
    const db: Database
    /** The batch slice: `length` items of an array of capacity batchSize. */
    const batch: array<PacketMax>
    var length: nat
    var timer: Option<Timer>
    var firstItemTime: Option<nat>
    var buffer: seq<PacketMax>
    var closed: bool
    var now: nat
    /** Add calls waiting at their select. */
    var waiting: map<nat, PacketMax>

    ghost const initial: Table
    ghost var model: State
    ghost var trace: seq<Step>

    /** The model is a reachable protocol state. */
    ghost predicate Traced()
      reads this
    {
      Inv(cfg, initial, model) && Runs(cfg, Init(initial), trace, model)
    }

    /** The fields other goroutines share with the consumer agree with the model. */
    ghost predicate Shared()
      reads this, db
    {
      && model.buffer == buffer && model.closed == closed && model.now == now && model.table == db.rows
      && model.calls.Keys == waiting.Keys
      && forall id :: id in waiting ==> model.calls[id] == Batcher.Waiting(waiting[id])
    }

    /** The consumer's own variables agree with the model. */
    ghost predicate Local()
      reads this, batch
    {
      && batch.Length == cfg.batchSize && length <= batch.Length
      && model.consumer.batch == batch[..length]
      && model.consumer.timer == timer && model.consumer.first == firstItemTime
    }

    ghost predicate Valid()
      reads this, batch, db
    {
      Traced() && Shared() && Local()
    }

    constructor (batchSize: int, batchTimeout: int, bufferSize: int, db: Database)
      ensures Valid() && fresh(batch) && this.db == db && initial == db.rows
      ensures model == Init(initial) && cfg == Normalise(batchSize, batchTimeout, bufferSize)
    {
      var c := Normalise(batchSize, batchTimeout, bufferSize);
      cfg := c;
      this.db := db;
      batch := new PacketMax[c.batchSize](_ => PacketMax("", "", 0.0, 0));
      length, timer, firstItemTime := 0, None, None;
      buffer, closed, now, waiting := [], false, 0, map[];
      initial := db.rows;
      model, trace := Init(db.rows), [];
      new;
      InitInv(cfg, initial);
    }

    ghost method Advance(step: Step)
      requires Traced() && Enabled(cfg, model, step)
      modifies this`model, this`trace
      ensures Traced() && model == Apply(cfg, old(model), step)
    {
      StepInv(cfg, initial, model, step);
      RunsSnoc(cfg, Init(initial), trace, model, step);
      model, trace := Apply(cfg, model, step), trace + [step];
    }

    /** The protocol steps of an Add call that returns an error before its select. */
    ghost method AdvanceRefused(id: nat, item: PacketMax, step: Step)
      requires Traced() && id !in model.calls
      requires var valid := ValidatePacketMax(item).Ok?;
        || (step == AddInvalid(id) && !valid)
        || (step == AddCancelled(id) && valid)
        || (step == AddCheck(id) && valid && model.closed)
      modifies this`model, this`trace
      ensures Traced()
      ensures model == old(model).(log := old(model.log).(refused := model.log.refused))
    {
      hide Inv, Runs, ValidatePacketMax;
      Advance(AddEnter(id, item));
      Advance(step);
      assert model.calls == old(model.calls);
    }

    /** The protocol steps of an Add call that reaches its select. */
    ghost method AdvanceWaiting(id: nat, item: PacketMax)
      requires Traced() && id !in model.calls && !model.closed && ValidatePacketMax(item).Ok?
      modifies this`model, this`trace
      ensures Traced()
      ensures model == old(model).(calls := old(model.calls)[id := Batcher.Waiting(item)])
    {
      hide Inv, Runs, ValidatePacketMax;
      Advance(AddEnter(id, item));
      Advance(AddCheck(id));
      assert model.calls == old(model.calls)[id := Batcher.Waiting(item)];
    }

    /** The protocol step of a waiting Add call that gives up. */
    ghost method AdvanceGone(id: nat, step: Step)
      requires Traced() && CallIs(model, id, true)
      requires step == AddCancelled(id) || (step == AddStopped(id) && model.closed)
      modifies this`model, this`trace
      ensures Traced()
      ensures model == old(model).(calls := old(model.calls) - {id},
                                   log := old(model.log).(refused := model.log.refused))
    {
      hide Inv, Runs, ValidatePacketMax;
      Advance(step);
    }

    ghost method AdvanceSend(id: nat)
      requires Traced() && CallIs(model, id, true) && |model.buffer| < cfg.bufferSize
      modifies this`model, this`trace
      ensures Traced()
      ensures var item := old(model.calls)[id].item;
        model == old(model).(calls := old(model.calls) - {id}, buffer := old(model.buffer) + [item],
                             log := old(model.log).(accepted := old(model.log.accepted) + [item]))
    {
      hide Inv, Runs, ValidatePacketMax;
      Advance(AddSend(id));
    }

    ghost method AdvanceWrite(plan: Plan)
      requires Traced() && model.consumer.pc.Flushing? && model.consumer.pc.next < |model.consumer.batch|
      modifies this`model, this`trace
      ensures Traced()
      ensures var k := old(model.consumer); var item := k.batch[k.pc.next];
        && model == old(model).(table := Write(old(model.table), item, plan).table,
                                consumer := k.(pc := k.pc.(next := k.pc.next + 1)), log := model.log)
        && model.log == old(model.log).(attempts := old(model.log.attempts) + [Attempt(item, plan)],
                                        lateWrites := model.log.lateWrites)
    {
      hide Inv, Runs, Write;
      Advance(WriteNext(plan));
    }

    ghost method AdvanceReceive(lag: nat)
      requires Traced() && model.buffer != [] && (model.consumer.pc.Selecting? || model.consumer.pc.Draining?)
      modifies this`model, this`trace
      ensures Traced()
      ensures var k := Append(cfg, old(model.consumer), old(model.buffer)[0], old(model.now), lag);
        model == if |k.batch| >= cfg.batchSize
          then old(model).(now := old(model.now) + lag, buffer := old(model.buffer)[1..],
                           consumer := k.(pc := Flushing(Size, 0, old(model.consumer.pc.Draining?))),
                           log := old(model.log).(flushes := old(model.log.flushes) + [Batcher.Flush(Size, k.batch)]))
          else old(model).(now := old(model.now) + lag, buffer := old(model.buffer)[1..], consumer := k)
    {
      hide Inv, Runs, ActivateTimer;
      Advance(Batcher.Receive(lag));
    }

    /** What a reachable state brings. */
    lemma Known()
      requires Traced()
      ensures model.consumer.pc.Selecting? || model.consumer.pc.Draining? ==> |model.consumer.batch| < cfg.batchSize
      ensures model.consumer.pc.Exited? ==>
        && model.closed && model.log.accepted == Items(model.log.attempts) + model.buffer
        && model.log.mark.Some? && |model.buffer| <= model.log.mark.value.waiting
      ensures model.consumer.timer.Some? ==> model.consumer.batch != []
      ensures model.table == Replay(initial, model.log.attempts)
    { }

    // -------------------------------------------------------------- Add and Close

    /** Add up to its select; None: it waits there. */
    method AddUntilSelect(id: nat, item: PacketMax, cancelled: bool) returns (r: Option<Result<(), string>>)
      requires Valid() && id !in waiting
      modifies this`waiting, this`model, this`trace
      ensures Valid() && model.consumer == old(model.consumer)
      ensures model.log == old(model.log).(refused := model.log.refused)
      ensures r == (if ValidatePacketMax(item).Err? then Some(Err(ValidatePacketMax(item).error))
                    else if cancelled then Some(Err("context cancelled"))
                    else if closed then Some(Err("repository closed")) else None)
      ensures waiting == if r.None? then old(waiting)[id := item] else old(waiting)
    {
      hide Inv, Runs, ValidatePacketMax;
      var valid := ValidatePacketMax(item);
      if valid.Err? {
        AdvanceRefused(id, item, AddInvalid(id));
        return Some(Err(valid.error));
      }
      if cancelled {
        AdvanceRefused(id, item, AddCancelled(id));
        return Some(Err("context cancelled"));
      }
      if closed {
        AdvanceRefused(id, item, AddCheck(id));
        return Some(Err("repository closed"));
      }
      AdvanceWaiting(id, item);
      waiting := waiting[id := item];
      return None;
    }

    /** The select of Add, when it takes the case `choice`; None: that case is not ready. */
    method AddSelect(id: nat, cancelled: bool, choice: AddChoice) returns (r: Option<Result<(), string>>)
      requires Valid() && id in waiting
      modifies this`waiting, this`buffer, this`model, this`trace
      ensures Valid() && model.consumer == old(model.consumer)
      ensures r == match choice
        case TakeSend => (if |old(buffer)| < cfg.bufferSize then Some(Ok(())) else None)
        case TakeStop => (if closed then Some(Err("repository closed")) else None)
        case TakeDone => (if cancelled then Some(Err("context cancelled")) else None)
      ensures var sent := if r == Some(Ok(())) then [old(waiting)[id]] else [];
        && buffer == old(buffer) + sent
        && model.log == old(model.log).(accepted := old(model.log.accepted) + sent, refused := model.log.refused)
      ensures waiting == if r.None? then old(waiting) else old(waiting) - {id}
    {
      hide Inv, Runs, Apply, Enabled, ValidatePacketMax, Replay, Normalise, Init;
      match choice {
        case TakeSend =>
          if |buffer| >= cfg.bufferSize {
            return None;
          }
          AdvanceSend(id);
          buffer := buffer + [waiting[id]];
          r := Some(Ok(()));
        case TakeStop =>
          if !closed {
            return None;
          }
          AdvanceGone(id, AddStopped(id));
          r := Some(Err("repository closed"));
        case TakeDone =>
          if !cancelled {
            return None;
          }
          AdvanceGone(id, AddCancelled(id));
          r := Some(Err("context cancelled"));
      }
      waiting := waiting - {id};
    }

    /** The locked section of Close. */
    method CloseLocked() returns (alreadyClosed: bool)
      requires Valid()
      modifies this`closed, this`model, this`trace
      ensures Valid() && model.consumer == old(model.consumer)
      ensures model.log == old(model.log).(mark := model.log.mark)
      ensures alreadyClosed == old(closed) && closed
    {
      hide Inv, Runs, AddApply, AddEnabled, ConsumeApply, ConsumeEnabled, Waiters;
      ghost var id := Above(model.closing.callers.Keys);
      Advance(CloseEnter(id));
      Advance(CloseLock(id));
      alreadyClosed := closed;
      closed := true;
    }

    // -------------------------------------------------------------- the other goroutines

    method Happen(event: Event)
      requires Valid()
      modifies this
      ensures Valid() && length == old(length) && Others(old(model), model)
      ensures match event
        case AddCalled(id, item, cancelled) =>
          id !in old(waiting) && ValidatePacketMax(item).Ok? && !cancelled && !closed ==>
            waiting == old(waiting)[id := item]
        case AddSelects(id, _, choice) =>
          id in old(waiting) && choice.TakeSend? && |old(buffer)| < cfg.bufferSize ==>
            buffer == old(buffer) + [old(waiting)[id]]
        case CloseCalled => closed
        case Elapsed(time) => now == old(now) + time
        case TimerFired =>
          old(timer).Some? && old(timer).value.Armed? && old(timer).value.deadline <= now ==> timer == Some(Ticked)
    {
      hide Inv, Runs, AddApply, AddEnabled, CloseApply, CloseEnabled, ConsumeApply, ConsumeEnabled, ValidatePacketMax;
      match event {
        case AddCalled(id, item, cancelled) =>
          if id !in waiting {
            var _ := AddUntilSelect(id, item, cancelled);
          }
        case AddSelects(id, cancelled, choice) =>
          if id in waiting {
            var _ := AddSelect(id, cancelled, choice);
          }
        case CloseCalled =>
          var _ := CloseLocked();
        case Elapsed(time) =>
          Advance(Elapse(time));
          now := now + time;
        case TimerFired =>
          if timer.Some? && timer.value.Armed? && timer.value.deadline <= now {
            Advance(TimerFires);
            timer := Some(Ticked);
          }
      }
    }

    method HappenAll(events: seq<Event>)
      requires Valid()
      modifies this
      ensures Valid() && length == old(length) && Others(old(model), model)
      ensures events == [] ==> model == old(model)
    {
      for i := 0 to |events|
        invariant Valid() && length == old(length) && Others(old(model), model)
        invariant i == 0 ==> model == old(model)
      {
        Happen(events[i]);
      }
    }

    // -------------------------------------------------------------- the consumer's closures

    method StartTimer(lag: nat)
      modifies this`timer
      ensures timer == ActivateTimer(cfg, old(timer), now + lag)
    {
      if cfg.batchTimeout <= 0 {
        return;
      }
      if timer.None? {
        timer := Some(Armed(now + lag + cfg.batchTimeout));
        return;
      }
      // Stop the old timer, drain its channel, reset it.
      timer := Some(Spent);
      timer := Some(Armed(now + lag + cfg.batchTimeout));
    }

    method StopTimer()
      modifies this`timer
      ensures timer.None?
    {
      if timer.None? {
        return;
      }
      timer := None;
    }

    /** appendToBatch, up to its flush. */
    method AppendToBatch(item: PacketMax, lag: nat)
      requires length < batch.Length
      modifies this`length, this`timer, this`firstItemTime, this`now, batch
      ensures length == old(length) + 1 && batch[..length] == old(batch[..length]) + [item]
      ensures now == old(now) + lag
      ensures firstItemTime == if old(length) == 0 then Some(old(now)) else old(firstItemTime)
      ensures timer == if old(length) == 0 then ActivateTimer(cfg, old(timer), old(now) + lag) else old(timer)
    {
      batch[length] := item;
      length := length + 1;
      if length == 1 {
        firstItemTime := Some(now);
        StartTimer(lag);
      }
      now := now + lag;
    }

    /** processBatch: one write after the other, while the others go on; a failed write does not stop
        the rest. */
    method ProcessBatch(writes: Writes)
      requires Valid() && model.consumer.pc.Flushing? && model.consumer.pc.next == 0
      modifies this, db
      ensures Valid() && model.consumer.pc == old(model.consumer.pc).(next := length) && length == old(length)
      ensures model.log.flushes == old(model.log.flushes)
      ensures Gained(old(model), model) && (Quiet(writes) ==> Kept(old(model), model))
      ensures model.log.attempts == old(model.log.attempts) + AttemptsOf(batch[..length], writes.plans)
    {
      hide Inv, Runs, Write, Apply, Enabled, TimerInv, BatchInv;
      ghost var items := batch[..length];
      for i := 0 to length
        invariant Valid() && model.consumer.pc == old(model.consumer.pc).(next := i) && length == old(length)
        invariant model.log.flushes == old(model.log.flushes)
        invariant Gained(old(model), model) && (Quiet(writes) ==> Kept(old(model), model))
        invariant model.log.attempts == old(model.log.attempts) + AttemptsOf(items[..i], writes.plans)
      {
        HappenAll(writes.events(i));
        var _ := WritePacketMax(db, batch[i], writes.plans(i));
        AdvanceWrite(writes.plans(i));
        AttemptsSnoc(items[..i], items[i], writes.plans);
        assert items[..i + 1] == items[..i] + [items[i]];
      }
      assert items[..length] == items;
    }

    /** flush, once the protocol step that leads to it has been taken. */
    method Flush(writes: Writes)
      requires Valid()
      requires if length == 0 then !model.consumer.pc.Flushing?
               else model.consumer.pc.Flushing? && model.consumer.pc.next == 0
      modifies this, db
      ensures Valid() && length == 0 && model.log.flushes == old(model.log.flushes)
      ensures old(length) == 0 ==> model == old(model)
      ensures old(length) > 0 ==>
        model.consumer
        == Consumer(Resume(old(model.consumer.pc.reason), old(model.consumer.pc.draining)), [], None, None)
      ensures Gained(old(model), model) && (Quiet(writes) ==> Kept(old(model), model))
      ensures model.log.attempts == old(model.log.attempts) + AttemptsOf(old(batch[..length]), writes.plans)
    {
      hide Inv, Runs, Write, AddApply, AddEnabled, CloseApply, CloseEnabled, Append, ActivateTimer, Replay;
      if length == 0 {
        return;
      }
      ProcessBatch(writes);
      Advance(EndFlush);
      length := 0;
      StopTimer();
      firstItemTime := None;
    }

    /** The case of a received item: it goes to the batch, and a full batch to the database. */
    method Receive(lag: nat, writes: Writes)
      requires Valid() && buffer != [] && (model.consumer.pc.Selecting? || model.consumer.pc.Draining?)
      modifies this, batch, db
      ensures Valid() && Taken(cfg, Turn([], PickBuffer, lag, writes), old(model), model)
      ensures old(model.log.accepted) <= model.log.accepted && (old(closed) ==> closed)
      ensures Received(model) == Received(old(model)) + 1
      ensures Quiet(writes) ==> model.log.accepted == old(model.log.accepted)
    {
      hide Inv, Runs, Replay, Apply, Enabled, Write, Normalise, Init, Items, AttemptsOf;
      Known();
      var item := buffer[0];
      buffer := buffer[1..];
      AppendToBatch(item, lag);
      AdvanceReceive(lag);
      assert model.consumer.batch == old(model.consumer.batch) + [item];
      if length >= cfg.batchSize {
        Flush(writes);
      }
    }

    /** The case of a tick: it is taken from the timer's channel, and the batch flushed. */
    method TimeOut(writes: Writes)
      requires Valid() && model.consumer.pc.Selecting? && timer == Some(Ticked)
      modifies this, batch, db
      ensures Valid() && Flushed(old(model), model, Batcher.Flush(Timeout, old(batch[..length])), writes.plans)
      ensures Gained(old(model), model) && (Quiet(writes) ==> Kept(old(model), model))
    {
      hide Inv, Runs, Write, AddApply, AddEnabled, CloseApply, CloseEnabled, Append, Replay;
      Known();
      timer := Some(Spent);
      Advance(TimedOut);
      Flush(writes);
    }

    // -------------------------------------------------------------- the consumer goroutine

    /** The select of one turn of the outer loop. */
    method Select(turn: Turn) returns (stopped: bool)
      requires Valid() && model.consumer.pc.Selecting?
      modifies this, batch, db
      ensures Valid() && Taken(cfg, turn, old(model), model)
      ensures stopped <==> turn.choice.PickStop? && old(closed)
      ensures model.consumer.pc == if stopped then Draining else Selecting
      ensures stopped ==> Kept(old(model), model)
      ensures turn.choice.PickTimeout? ==> timer != Some(Ticked)
      ensures old(model.log.accepted) <= model.log.accepted && (old(closed) ==> closed)
    {
      hide Inv, Runs, Write, AddApply, AddEnabled, CloseApply, CloseEnabled, Append, ActivateTimer, Replay;
      stopped := false;
      match turn.choice {
        case PickStop =>
          if closed {
            Advance(Stop);
            stopped := true;
          }
        case PickBuffer =>
          if buffer != [] {
            Receive(turn.lag, turn.writes);
          }
        case PickTimeout =>
          if timer == Some(Ticked) {
            TimeOut(turn.writes);
          }
      }
    }

    /** run: the consumer loop under any schedule. Every turn is taken as its choice says; after a stop
        the buffer is drained. The loop returns only from there; then its batch is empty, and what was
        accepted is what was attempted, then what is still in the buffer. */
    method Run(turns: seq<Turn>) returns (returned: bool, ghost moments: seq<Moment>)
      requires Valid() && model.consumer.pc.Selecting?
      modifies this, batch, db
      ensures Valid() && History(cfg, turns, old(model), moments)
      ensures returned <==> model.consumer.pc.Exited?
      ensures var last := Since(old(model), moments, |moments|);
        if last.consumer.pc.Draining? then !returned ==> Received(model) == Received(last) + |turns| - |moments|
        else !returned && |moments| == |turns| && model == last
      ensures returned ==> closed && length == 0 && model.log.accepted == Items(model.log.attempts) + buffer
      ensures returned ==> model.log.mark.Some? && |buffer| <= model.log.mark.value.waiting
      ensures turns != [] && turns[|turns| - 1].choice.PickTimeout? && model.consumer.pc.Selecting? ==>
        timer != Some(Ticked)
      ensures turns != [] && turns[0].choice.PickStop? && old(closed) && AllQuiet(turns)
              && |turns| >= |old(buffer)| + 2 ==>
        returned && buffer == [] && Items(model.log.attempts) == old(model.log.accepted)
      ensures db.rows == Replay(initial, model.log.attempts)
    {
      hide Inv, Runs, Write, AddApply, AddEnabled, CloseApply, CloseEnabled, Append, ActivateTimer,
           Replay, Others, Taken;
      var i := 0;
      moments := [];
      while i < |turns|
        invariant 0 <= i == |moments| <= |turns|
        invariant Valid() && model.consumer.pc.Selecting? && History(cfg, turns, old(model), moments)
        invariant model == Since(old(model), moments, i)
        invariant i > 0 && turns[i - 1].choice.PickTimeout? ==> timer != Some(Ticked)
        invariant i > 0 && turns[0].choice.PickStop? && AllQuiet(turns) ==> !old(closed)
      {
        var turn := turns[i];
        HappenAll(turn.events);
        ghost var ready := model;
        var stopped := Select(turn);
        HistorySnoc(cfg, turns, old(model), moments, Moment(ready, model));
        moments := moments + [Moment(ready, model)];
        i := i + 1;
        if stopped {
          returned := DrainBuffer(turns[i..]);
          Known();
          return;
        }
      }
      Known();
      returned := false;
    }

    /** The inner loop after the stop: each turn receives an item while the buffer holds one; the first
        turn that finds it empty flushes what is left, and the loop returns. */
    method DrainBuffer(turns: seq<Turn>) returns (returned: bool)
      requires Valid() && model.consumer.pc.Draining?
      modifies this, batch, db
      ensures Valid() && old(model.log.accepted) <= model.log.accepted
      ensures if returned then model.consumer.pc.Exited? else model.consumer.pc.Draining?
      ensures returned ==> closed && length == 0 && model.log.accepted == Items(model.log.attempts) + buffer
      ensures !returned ==> Received(model) == Received(old(model)) + |turns|
      ensures AllQuiet(turns) ==> model.log.accepted == old(model.log.accepted) && (returned ==> buffer == [])
      ensures AllQuiet(turns) ==> (returned <==> |turns| > |old(buffer)|)
    {
      hide Inv, Runs, Write, AddApply, AddEnabled, CloseApply, CloseEnabled, Append, ActivateTimer, Replay;
      for i := 0 to |turns|
        invariant Valid() && model.consumer.pc.Draining? && old(model.log.accepted) <= model.log.accepted
        invariant Received(model) == Received(old(model)) + i
        invariant AllQuiet(turns) ==> model.log.accepted == old(model.log.accepted)
      {
        HappenAll(turns[i].events);
        if buffer != [] {
          Receive(turns[i].lag, turns[i].writes);
        } else {
          Advance(Finish);
          Flush(turns[i].writes);
          Known();
          return true;
        }
      }
      returned := false;
    }
  }

  /** New; whether the DSN parses as a URL is a parameter. */
  method New(dsn: string, dsnParses: bool, batchSize: int, batchTimeout: int, bufferSize: int, db: Database)
    returns (r: Result<Repository, string>)
    ensures r.Ok? <==> dsn != "" && dsnParses
    ensures r.Ok? ==> var repo := r.value;
      && fresh(repo) && fresh(repo.batch) && repo.Valid() && repo.db == db && repo.initial == db.rows
      && repo.model == Init(db.rows) && repo.cfg == Normalise(batchSize, batchTimeout, bufferSize)
  {
    if dsn == "" {
      return Err("DSN is required");
    }
    if !dsnParses {
      return Err("parse dsn");
    }
    var repo := new Repository(batchSize, batchTimeout, bufferSize, db);
    r := Ok(repo);
  }

  function AttemptsOf(items: seq<PacketMax>, plans: nat -> Plan): (r: seq<Attempt>)
    ensures |r| == |items|
  {
    seq(|items|, i requires 0 <= i < |items| => Attempt(items[i], plans(i)))
  }

  lemma AttemptsSnoc(items: seq<PacketMax>, item: PacketMax, plans: nat -> Plan)
    ensures AttemptsOf(items + [item], plans) == AttemptsOf(items, plans) + [Attempt(item, plans(|items|))]
  { }
}
