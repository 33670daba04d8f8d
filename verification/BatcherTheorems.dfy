/** What every run of the repository guarantees, and runs that show where the guarantees end. */
module BatcherTheorems {
  import opened Domain
  import opened PacketTable
  import opened Batcher
  import opened BatcherProgress

  predicate Reachable(c: Config, t0: Table, steps: seq<Step>, s: State) {
    ValidConfig(c) && Runs(c, Init(t0), steps, s)
  }

  lemma ReachableInv(c: Config, t0: Table, steps: seq<Step>, s: State)
    requires Reachable(c, t0, steps, s)
    ensures Inv(c, t0, s)
  {
    InitInv(c, t0);
    RunInv(c, t0, Init(t0), steps, s);
  }

  // ---------------------------------------------------------------- batching and loss

  /** Batching refines direct writing: what Add accepted is, in send order, what was attempted,
      then the rest of the batch, then the buffer; and the table is the one-at-a-time fold of the
      attempted prefix, without the attempts that had no effect, as long as no update by packet has
      changed a row: so with any database whose errors do not pass for unique violations. */
  lemma BatchingRefinesDirectWriting(c: Config, t0: Table, steps: seq<Step>, s: State)
    requires Reachable(c, t0, steps, s)
    ensures s.log.accepted == Items(s.log.attempts) + Unwritten(s.consumer) + Pending(s.consumer) + s.buffer
    ensures s.table == Replay(t0, s.log.attempts)
    ensures NeverFallsBack(t0, s.log.attempts) ==> s.table == WriteAll(t0, Effective(t0, s.log.attempts))
    ensures AllHonest(s.log.attempts) ==> NeverFallsBack(t0, s.log.attempts)
    ensures (forall a :: a in s.log.attempts ==> a.plan == NO_FAULTS) ==>
      s.table == WriteAll(t0, s.log.accepted[..|s.log.attempts|])
  {
    hide Runs, WriteAll, Effective, Honest, NeverFallsBack, Replay, TimerInv, BatchInv, FlushSizes, StopInv, CloseInv;
    ReachableInv(c, t0, steps, s);
    if AllHonest(s.log.attempts) {
      HonestNeverFallsBack(t0, s.log.attempts);
    }
    if NeverFallsBack(t0, s.log.attempts) {
      ReplayIsFold(t0, s.log.attempts);
    }
    if forall a :: a in s.log.attempts ==> a.plan == NO_FAULTS {
      FaultlessPrefix(t0, s.log.attempts, s.log.accepted);
    }
  }

  lemma FaultlessPrefix(t0: Table, attempts: seq<Attempt>, accepted: seq<PacketMax>)
    requires forall a :: a in attempts ==> a.plan == NO_FAULTS
    requires |attempts| <= |accepted| && accepted[..|attempts|] == Items(attempts)
    ensures Replay(t0, attempts) == WriteAll(t0, accepted[..|attempts|])
  {
    HonestNeverFallsBack(t0, attempts);
    ReplayIsFold(t0, attempts);
    FaultlessAttemptsAreEffective(t0, attempts);
  }

  lemma MarkStep(c: Config, s: State, step: Step)
    requires s.closed && Enabled(c, s, step)
    ensures Apply(c, s, step).closed && Apply(c, s, step).log.mark == s.log.mark
  {
    hide Write, Append, ValidatePacketMax;
  }

  lemma {:induction false} MarkKept(c: Config, s: State, steps: seq<Step>, t: State)
    requires s.closed && Runs(c, s, steps, t)
    ensures t.closed && t.log.mark == s.log.mark
    decreases |steps|
  {
    hide Apply, Enabled;
    if steps != [] {
      MarkStep(c, s, steps[0]);
      MarkKept(c, Apply(c, s, steps[0]), steps[1..], t);
    }
  }

  /** From state s a Close call closes stopCh, and the run goes on to t. */
  predicate StopsAt(c: Config, t0: Table, before: seq<Step>, s: State, id: nat, after: seq<Step>, t: State) {
    && Reachable(c, t0, before, s)
    && !s.closed && Enabled(c, s, CloseLock(id))
    && Runs(c, Apply(c, s, CloseLock(id)), after, t)
  }

  lemma StopMark(c: Config, t0: Table, before: seq<Step>, s: State, id: nat, after: seq<Step>, t: State)
    requires StopsAt(c, t0, before, s, id, after, t)
    ensures Inv(c, t0, t) && t.log.mark == Some(Mark(|s.log.accepted|, |Waiters(s.calls)|))
  {
    hide Inv;
    ReachableInv(c, t0, before, s);
    StepInv(c, t0, s, CloseLock(id));
    RunInv(c, t0, Apply(c, s, CloseLock(id)), after, t);
    MarkKept(c, Apply(c, s, CloseLock(id)), after, t);
  }

  /** When the consumer has returned, what was accepted and never attempted is exactly the buffer, a
      suffix of what was accepted, all of it accepted after the stop; and it is bounded by the buffer
      and by the number of Adds that were past their check at the moment stopCh closed. */
  lemma LossBound(c: Config, t0: Table, before: seq<Step>, s: State, id: nat, after: seq<Step>, t: State)
    requires StopsAt(c, t0, before, s, id, after, t) && t.consumer.pc.Exited?
    ensures t.log.accepted == Items(t.log.attempts) + t.buffer
    ensures |s.log.accepted| <= |t.log.attempts|
    ensures |t.buffer| <= c.bufferSize && |t.buffer| <= |Waiters(s.calls)|
  {
    StopMark(c, t0, before, s, id, after, t);
  }

  /** Orderly shutdown: if no Add was past its check when stopCh closed, nothing is lost. */
  lemma OrderlyShutdownLosesNothing(c: Config, t0: Table, before: seq<Step>, s: State, id: nat,
                                    after: seq<Step>, t: State)
    requires StopsAt(c, t0, before, s, id, after, t) && t.consumer.pc.Exited?
    requires Waiters(s.calls) == {}
    ensures t.consumer.batch == [] && t.buffer == []
    ensures Items(t.log.attempts) == t.log.accepted
  {
    StopMark(c, t0, before, s, id, after, t);
  }

  lemma NoSteps(c: Config, s: State)
    ensures Runs(c, s, [], s)
  { }

  lemma Advance(c: Config, s0: State, steps: seq<Step>, s: State, step: Step)
    returns (longer: seq<Step>, next: State)
    requires Runs(c, s0, steps, s) && Enabled(c, s, step)
    ensures Runs(c, s0, longer, next) && next == Apply(c, s, step)
  {
    RunsSnoc(c, s0, steps, s, step);
    longer, next := steps + [step], Apply(c, s, step);
  }

  lemma {:induction false} RunsConcat(c: Config, s: State, steps: seq<Step>, t: State, more: seq<Step>, u: State)
    requires Runs(c, s, steps, t) && Runs(c, t, more, u)
    ensures Runs(c, s, steps + more, u)
    decreases |steps|
  {
    if steps == [] {
      assert steps + more == more;
    } else {
      assert (steps + more)[1..] == steps[1..] + more;
      RunsConcat(c, Apply(c, s, steps[0]), steps[1..], t, more, u);
    }
  }

  /** Waiting Adds can send to a consumer that has returned, as long as the buffer has room. */
  lemma {:induction false} SendMany(c: Config, s: State, n: nat) returns (steps: seq<Step>, t: State)
    requires s.consumer.pc.Exited? && n <= |Waiters(s.calls)| && |s.buffer| + n <= c.bufferSize
    ensures Runs(c, s, steps, t) && t.consumer == s.consumer && t.log.attempts == s.log.attempts
    ensures |t.buffer| == |s.buffer| + n
    decreases n
  {
    if n == 0 {
      steps, t := [], s;
    } else {
      var id :| id in Waiters(s.calls);
      var r := Apply(c, s, AddSend(id));
      assert Waiters(r.calls) == Waiters(s.calls) - {id};
      hide Waiters, ValidatePacketMax;
      steps, t := SendMany(c, r, n - 1);
      steps := [AddSend(id)] + steps;
    }
  }

  /** A run from a stop that loses n items, and attempts exactly what was accepted before it. */
  lemma LosingRun(c: Config, t0: Table, before: seq<Step>, s: State, id: nat, n: nat)
    returns (after: seq<Step>, t: State)
    requires Reachable(c, t0, before, s) && !s.closed && Enabled(c, s, CloseLock(id))
    requires n <= |Waiters(s.calls)| && n <= c.bufferSize
    ensures StopsAt(c, t0, before, s, id, after, t) && t.consumer.pc.Exited?
    ensures |t.buffer| == n && Items(t.log.attempts) == s.log.accepted
  {
    var stopped := Apply(c, s, CloseLock(id));
    ReachableInv(c, t0, before, s);
    StepInv(c, t0, s, CloseLock(id));
    assert !Finished(stopped.consumer.pc);
    var drain, drained := Drains(c, t0, stopped);
    RunInv(c, t0, stopped, drain, drained);
    assert Items(drained.log.attempts) == drained.log.accepted;
    hide Inv, Waiters, Finished, Apply, Enabled;
    var send: seq<Step>;
    send, t := SendMany(c, drained, n);
    after := drain + send;
    RunsConcat(c, stopped, drain, drained, send, t);
  }

  /** What a stop can lose, exactly: any number of accepted items up to the number of Adds past their
      check and the capacity of the buffer, and no other number. */
  lemma StopLosesExactly(c: Config, t0: Table, before: seq<Step>, s: State, id: nat, n: nat)
    requires Reachable(c, t0, before, s) && !s.closed && Enabled(c, s, CloseLock(id))
    ensures (exists after, t :: StopsAt(c, t0, before, s, id, after, t) && t.consumer.pc.Exited? && |t.buffer| == n)
       <==> n <= |Waiters(s.calls)| && n <= c.bufferSize
  {
    hide Reachable, Runs, Enabled, StopsAt, Waiters;
    if after, t :| StopsAt(c, t0, before, s, id, after, t) && t.consumer.pc.Exited? && |t.buffer| == n {
      LossBound(c, t0, before, s, id, after, t);
    }
    if n <= |Waiters(s.calls)| && n <= c.bufferSize {
      var after, t := LosingRun(c, t0, before, s, id, n);
    }
  }

  /** So everything accepted is attempted in every run from a stop, exactly when no Add is past its
      check at the stop. */
  lemma NothingLostIffNoAddWaits(c: Config, t0: Table, before: seq<Step>, s: State, id: nat)
    requires Reachable(c, t0, before, s) && !s.closed && Enabled(c, s, CloseLock(id))
    ensures (forall after, t :: StopsAt(c, t0, before, s, id, after, t) && t.consumer.pc.Exited? ==>
               Items(t.log.attempts) == t.log.accepted)
       <==> Waiters(s.calls) == {}
  {
    hide Runs, Enabled, StopsAt, Waiters;
    if Waiters(s.calls) == {} {
      forall after, t | StopsAt(c, t0, before, s, id, after, t) && t.consumer.pc.Exited?
        ensures Items(t.log.attempts) == t.log.accepted
      {
        OrderlyShutdownLosesNothing(c, t0, before, s, id, after, t);
      }
    } else {
      var after, t := LosingRun(c, t0, before, s, id, 1);
      LossBound(c, t0, before, s, id, after, t);
      assert |t.log.accepted| == |Items(t.log.attempts)| + 1;
    }
  }

  // ---------------------------------------------------------------- flushes and the timer

  /** The flushes cut what was received into consecutive batches: full ones by size, partial and
      non-empty ones by timeout or at the end; what is pending is always less than a batch. */
  lemma FlushesPartitionReceived(c: Config, t0: Table, steps: seq<Step>, s: State)
    requires Reachable(c, t0, steps, s)
    ensures |s.buffer| <= |s.log.accepted|
    ensures s.log.accepted[..|s.log.accepted| - |s.buffer|] == Concat(s.log.flushes) + Pending(s.consumer)
    ensures |Pending(s.consumer)| < c.batchSize
    ensures forall f :: f in s.log.flushes ==>
      if f.reason.Size? then |f.items| == c.batchSize else 1 <= |f.items| < c.batchSize
  {
    ReachableInv(c, t0, steps, s);
  }

  function Receives(steps: seq<Step>): nat {
    if steps == [] then 0 else (if steps[0].Receive? then 1 else 0) + Receives(steps[1..])
  }

  lemma StepBatch(c: Config, s: State, step: Step)
    requires Enabled(c, s, step)
    ensures |Apply(c, s, step).log.flushes| >= |s.log.flushes|
    ensures !s.consumer.pc.Flushing? && |Apply(c, s, step).log.flushes| == |s.log.flushes| ==>
      && !Apply(c, s, step).consumer.pc.Flushing?
      && |Apply(c, s, step).consumer.batch| == |s.consumer.batch| + (if step.Receive? then 1 else 0)
  { }

  lemma {:induction false} RunBatch(c: Config, s: State, steps: seq<Step>, t: State)
    requires Runs(c, s, steps, t)
    ensures |t.log.flushes| >= |s.log.flushes|
    ensures !s.consumer.pc.Flushing? && |t.log.flushes| == |s.log.flushes| ==>
      !t.consumer.pc.Flushing? && |t.consumer.batch| == |s.consumer.batch| + Receives(steps)
    decreases |steps|
  {
    if steps != [] {
      StepBatch(c, s, steps[0]);
      RunBatch(c, Apply(c, s, steps[0]), steps[1..], t);
    }
  }

  /** Bounded bypass: from a pending batch, batchSize - |batch| more receives bring a flush, even
      if a timeout that is ready is never chosen. */
  lemma FlushWithinReceives(c: Config, t0: Table, before: seq<Step>, s: State, steps: seq<Step>, t: State)
    requires Reachable(c, t0, before, s) && Runs(c, s, steps, t)
    requires !s.consumer.pc.Flushing? && s.consumer.batch != []
    requires Receives(steps) >= c.batchSize - |s.consumer.batch|
    ensures |t.log.flushes| > |s.log.flushes|
  {
    ReachableInv(c, t0, before, s);
    RunInv(c, t0, s, steps, t);
    RunBatch(c, s, steps, t);
  }

  /** At every select a timer exists exactly when batchTimeout is positive and an item is pending;
      so a timer is only ever started when there is none, a tick never flushes an empty batch, and
      never one whose first item has waited less than batchTimeout. */
  lemma TimeoutsAreHonest(c: Config, t0: Table, steps: seq<Step>, s: State)
    requires Reachable(c, t0, steps, s)
    ensures s.consumer.timer.Some? <==> c.batchTimeout > 0 && s.consumer.batch != []
    ensures s.consumer.first.Some? <==> s.consumer.batch != []
    ensures Enabled(c, s, TimedOut) ==>
      && s.consumer.batch != []
      && s.consumer.first.value + c.batchTimeout <= s.now
      && Apply(c, s, TimedOut).log.flushes == s.log.flushes + [Flush(Timeout, s.consumer.batch)]
  {
    ReachableInv(c, t0, steps, s);
  }

  /** A running timer is due within batchTimeout: once that much time has passed it can fire, and the
      consumer can then flush what is pending at its select. */
  lemma TimeoutsAreDue(c: Config, t0: Table, steps: seq<Step>, s: State)
    requires Reachable(c, t0, steps, s) && s.consumer.timer.Some? && s.consumer.timer.value.Armed?
    ensures s.consumer.timer.value.deadline <= s.now + c.batchTimeout
    ensures var later := Apply(c, s, Elapse(c.batchTimeout));
      && Enabled(c, later, TimerFires)
      && var fired := Apply(c, later, TimerFires);
         s.consumer.pc.Selecting? ==>
           && Enabled(c, fired, TimedOut)
           && Apply(c, fired, TimedOut).log.flushes == s.log.flushes + [Flush(Timeout, s.consumer.batch)]
  {
    ReachableInv(c, t0, steps, s);
  }

  // ---------------------------------------------------------------- Close

  /** Any number of Close calls close stopCh at most once and the runner at most once; the runner
      is closed when any of them has returned; and if no two overlap, no write follows. */
  lemma CloseProtocol(c: Config, t0: Table, steps: seq<Step>, s: State)
    requires Reachable(c, t0, steps, s)
    ensures s.closing.stopCloses <= 1 && s.closing.runnerCloses <= 1
    ensures s.closing.completed > 0 ==> s.closing.stopCloses == 1 && s.closing.runnerCloses == 1
    ensures !s.closing.overlapped ==> s.log.lateWrites == 0
    ensures !s.closing.overlapped && s.closing.completed > 0 ==> s.consumer.pc.Exited?
  {
    ReachableInv(c, t0, steps, s);
  }

  /** Close call id has passed its lock, and it waits for the consumer or the consumer has returned. */
  predicate Waited(s: State, id: nat) {
    && id in s.closing.callers && !s.closing.callers[id].Entering?
    && (s.closing.callers[id].AtOnce? ==> s.consumer.pc.Exited?)
  }

  lemma WaitedStep(c: Config, s: State, id: nat, step: Step)
    requires Waited(s, id) && Enabled(c, s, step) && step != CloseOnce(id)
    ensures Waited(Apply(c, s, step), id)
  {
    hide Write, Append, ValidatePacketMax;
  }

  lemma {:induction false} WaitedRun(c: Config, s: State, id: nat, steps: seq<Step>, t: State)
    requires Waited(s, id) && Runs(c, s, steps, t) && CloseOnce(id) !in steps
    ensures Waited(t, id)
    decreases |steps|
  {
    hide Waited, Apply, Enabled;
    if steps != [] {
      WaitedStep(c, s, id, steps[0]);
      WaitedRun(c, Apply(c, s, steps[0]), id, steps[1..], t);
    }
  }

  /** A run from s at whose end, t, Close call id comes to closeOnce and so to its return. */
  predicate CloseEnds(c: Config, s: State, id: nat, steps: seq<Step>, t: State) {
    Runs(c, s, steps, t) && CloseOnce(id) !in steps && Enabled(c, t, CloseOnce(id))
  }

  /** A Close call has always waited for the consumer when it comes to its end, exactly when it was
      the first to find the repository open, or the consumer had already returned. */
  lemma CloseWaitsIffFirst(c: Config, s: State, id: nat)
    requires Enabled(c, s, CloseLock(id))
    ensures (forall steps, t :: CloseEnds(c, Apply(c, s, CloseLock(id)), id, steps, t) ==> t.consumer.pc.Exited?)
       <==> !s.closed || s.consumer.pc.Exited?
  {
    var locked := Apply(c, s, CloseLock(id));
    if !s.closed || s.consumer.pc.Exited? {
      forall steps, t | CloseEnds(c, locked, id, steps, t) ensures t.consumer.pc.Exited? {
        WaitedRun(c, locked, id, steps, t);
      }
    } else {
      assert CloseEnds(c, locked, id, [], locked);
    }
  }

  /** A write can still come: of an item not yet attempted, or of one that a waiting Add may send. */
  predicate WorkLeft(s: State) {
    || Unwritten(s.consumer) != []
    || (!Finished(s.consumer.pc) && (Pending(s.consumer) != [] || s.buffer != [] || Waiters(s.calls) != {}))
  }

  lemma IdleConsume(c: Config, s: State, step: Step)
    requires !WorkLeft(s) && IsConsume(step) && ConsumeEnabled(s, step)
    ensures !WorkLeft(ConsumeApply(c, s, step)) && !step.WriteNext?
  {
    hide Append, ActivateTimer, Write;
  }

  lemma IdleStep(c: Config, s: State, step: Step)
    requires s.closed && !WorkLeft(s) && Enabled(c, s, step)
    ensures var r := Apply(c, s, step); r.closed && !WorkLeft(r) && r.log.attempts == s.log.attempts
  {
    if IsConsume(step) {
      IdleConsume(c, s, step);
      hide WorkLeft, Append;
    } else if IsAdd(step) {
      hide ConsumeApply, ConsumeEnabled, ValidatePacketMax;
      assert CallIs(s, step.id, true) ==> step.id in Waiters(s.calls);
      assert Waiters(Apply(c, s, step).calls) <= Waiters(s.calls);
    } else {
      hide ConsumeApply, ConsumeEnabled, Waiters, Finished;
    }
  }

  /** When no work is left after the stop, nothing is ever written again. */
  lemma {:induction false} IdleRun(c: Config, s: State, steps: seq<Step>, t: State)
    requires s.closed && !WorkLeft(s) && Runs(c, s, steps, t)
    ensures t.closed && !WorkLeft(t) && t.log.attempts == s.log.attempts
    decreases |steps|
  {
    hide WorkLeft, Apply, Enabled;
    if steps != [] {
      IdleStep(c, s, steps[0]);
      IdleRun(c, Apply(c, s, steps[0]), steps[1..], t);
    }
  }

  lemma SendOne(c: Config, t0: Table, s: State) returns (steps: seq<Step>, t: State)
    requires Inv(c, t0, s) && s.buffer == [] && Waiters(s.calls) != {}
    ensures Runs(c, s, steps, t) && Inv(c, t0, t)
    ensures t.closed == s.closed && t.consumer == s.consumer && t.log.attempts == s.log.attempts && |t.buffer| == 1
  {
    var id :| id in Waiters(s.calls);
    StepInv(c, t0, s, AddSend(id));
    hide Inv;
    assert ValidConfig(c);
    NoSteps(c, s);
    steps, t := Advance(c, s, [], s, AddSend(id));
  }

  lemma Unattempted(c: Config, t0: Table, s: State)
    requires Inv(c, t0, s)
    ensures |s.log.accepted|
         == |s.log.attempts| + |Unwritten(s.consumer)| + |Pending(s.consumer)| + |s.buffer|
    ensures s.consumer.pc.Exited? ==> Unwritten(s.consumer) == [] && Pending(s.consumer) == []
  { }

  /** When work is left after the stop, some run writes. */
  lemma BusyRun(c: Config, t0: Table, s: State) returns (steps: seq<Step>, t: State)
    requires Inv(c, t0, s) && s.closed && WorkLeft(s)
    ensures Runs(c, s, steps, t) && |t.log.attempts| > |s.log.attempts|
  {
    hide Inv, Runs, Enabled, Apply, Waiters, Finished, Unwritten, Pending;
    var first: seq<Step>, r := [], s;
    NoSteps(c, s);
    if !Finished(s.consumer.pc) && s.buffer == [] && Waiters(s.calls) != {} {
      first, r := SendOne(c, t0, s);
    }
    steps, t := Drains(c, t0, r);
    RunInv(c, t0, r, steps, t);
    Unattempted(c, t0, r);
    Unattempted(c, t0, t);
    RunsConcat(c, s, first, r, steps, t);
    steps := first + steps;
  }

  /** A run from s in which Close call id comes to its end in state mid, and a write follows. */
  predicate WriteFollows(c: Config, s: State, id: nat, steps: seq<Step>, mid: State, rest: seq<Step>, t: State) {
    && CloseEnds(c, s, id, steps, mid)
    && Runs(c, Apply(c, mid, CloseOnce(id)), rest, t) && |t.log.attempts| > |mid.log.attempts|
  }

  /** A write that follows shows that the call found the repository closed while work was left. */
  lemma NoWriteFollows(c: Config, s: State, id: nat, steps: seq<Step>, mid: State, rest: seq<Step>, t: State)
    requires Enabled(c, s, CloseLock(id))
    requires WriteFollows(c, Apply(c, s, CloseLock(id)), id, steps, mid, rest, t)
    ensures s.closed && WorkLeft(s)
  {
    var locked := Apply(c, s, CloseLock(id));
    hide Runs;
    MarkKept(c, locked, steps, mid);
    if !s.closed {
      WaitedRun(c, locked, id, steps, mid);
    } else if !WorkLeft(s) {
      IdleRun(c, locked, steps, mid);
    }
    if !WorkLeft(mid) {
      IdleRun(c, Apply(c, mid, CloseOnce(id)), rest, t);
    }
  }

  /** A write can follow the end of a Close call, and so the closing of the runner, exactly when the
      call found the repository closed while work was left. */
  lemma WriteCanFollowCloseIff(c: Config, t0: Table, before: seq<Step>, s: State, id: nat)
    requires Reachable(c, t0, before, s) && Enabled(c, s, CloseLock(id))
    ensures (exists steps, mid, rest, t :: WriteFollows(c, Apply(c, s, CloseLock(id)), id, steps, mid, rest, t))
       <==> s.closed && WorkLeft(s)
  {
    ReachableInv(c, t0, before, s);
    hide Inv, Runs, WorkLeft, Apply, Enabled, WriteFollows;
    if steps, mid, rest, t :| WriteFollows(c, Apply(c, s, CloseLock(id)), id, steps, mid, rest, t) {
      NoWriteFollows(c, s, id, steps, mid, rest, t);
    }
    if s.closed && WorkLeft(s) {
      var rest, t := WriteAfterClose(c, t0, s, id);
    }
  }

  lemma WriteAfterClose(c: Config, t0: Table, s: State, id: nat) returns (rest: seq<Step>, t: State)
    requires Inv(c, t0, s) && Enabled(c, s, CloseLock(id)) && s.closed && WorkLeft(s)
    ensures var locked := Apply(c, s, CloseLock(id)); WriteFollows(c, locked, id, [], locked, rest, t)
  {
    hide Inv;
    var locked := Apply(c, s, CloseLock(id));
    StepInv(c, t0, s, CloseLock(id));
    NoSteps(c, locked);
    hide Runs, Finished, Waiters;
    var ended := Apply(c, locked, CloseOnce(id));
    StepInv(c, t0, locked, CloseOnce(id));
    rest, t := BusyRun(c, t0, ended);
  }

  // ---------------------------------------------------------------- witnesses

  function Ids(lo: nat, n: nat): (r: set<nat>)
    ensures forall i :: i in r <==> lo <= i < n
  {
    if n <= lo then {} else Ids(lo, n - 1) + {n - 1}
  }

  function WaitingCalls(lo: nat, n: nat, item: PacketMax): map<nat, Call> {
    map i | i in Ids(lo, n) :: Waiting(item)
  }

  lemma {:induction false} EnterMany(c: Config, t0: Table, item: PacketMax, n: nat) returns (steps: seq<Step>)
    requires ValidatePacketMax(item).Ok?
    ensures Runs(c, Init(t0), steps, Init(t0).(calls := WaitingCalls(0, n, item)))
  {
    var init := Init(t0);
    if n == 0 {
      steps := [];
      assert WaitingCalls(0, 0, item) == map[];
    } else {
      steps := EnterMany(c, t0, item, n - 1);
      var s := init.(calls := WaitingCalls(0, n - 1, item));
      steps, s := Advance(c, init, steps, s, AddEnter(n - 1, item));
      steps, s := Advance(c, init, steps, s, AddCheck(n - 1));
      assert s.calls == WaitingCalls(0, n, item);
    }
  }

  lemma {:induction false} IdsCount(n: nat)
    ensures |Ids(0, n)| == n
  {
    if n > 0 {
      IdsCount(n - 1);
    }
  }

  lemma WaitersCount(item: PacketMax, n: nat)
    ensures |Waiters(WaitingCalls(0, n, item))| == n
  {
    assert Waiters(WaitingCalls(0, n, item)) == Ids(0, n);
    IdsCount(n);
  }

  /** n Adds wait, and a Close call has entered. */
  function AllWaiting(t0: Table, item: PacketMax, n: nat): State {
    Init(t0).(calls := WaitingCalls(0, n, item), closing := Closing(map[0 := Entering], false, 0, 0, 0, false))
  }

  lemma ReachAllWaiting(c: Config, t0: Table, item: PacketMax, n: nat) returns (steps: seq<Step>)
    requires ValidatePacketMax(item).Ok?
    ensures Runs(c, Init(t0), steps, AllWaiting(t0, item, n))
  {
    hide Runs, ValidatePacketMax;
    steps := EnterMany(c, t0, item, n);
    var s: State;
    steps, s := Advance(c, Init(t0), steps, Init(t0).(calls := WaitingCalls(0, n, item)), CloseEnter(0));
    assert s.closing.callers == map[0 := Entering];
  }

  /** The loss bound is exact: for every configuration and every number n of Adds past their check,
      some run loses min(n, bufferSize) accepted items, although each of those Adds returned nil. */
  lemma LossBoundIsTight(c: Config, t0: Table, item: PacketMax, n: nat)
    returns (before: seq<Step>, s: State, after: seq<Step>, t: State)
    requires ValidConfig(c) && ValidatePacketMax(item).Ok?
    ensures StopsAt(c, t0, before, s, 0, after, t) && t.consumer.pc.Exited?
    ensures |Waiters(s.calls)| == n && t.log.attempts == [] && t.log.accepted == t.buffer
    ensures |t.buffer| == if n <= c.bufferSize then n else c.bufferSize
  {
    hide Runs, ValidatePacketMax;
    before := ReachAllWaiting(c, t0, item, n);
    s := AllWaiting(t0, item, n);
    WaitersCount(item, n);
    after, t := LosingRun(c, t0, before, s, 0, if n <= c.bufferSize then n else c.bufferSize);
    LossBound(c, t0, before, s, 0, after, t);
  }

  /** One accepted item in the buffer. */
  function OneAccepted(t0: Table, item: PacketMax): State {
    Init(t0).(buffer := [item], log := Log([item], [], [], [], None, 0))
  }

  lemma ReachOneAccepted(c: Config, t0: Table, item: PacketMax) returns (steps: seq<Step>)
    requires ValidConfig(c) && ValidatePacketMax(item).Ok?
    ensures Runs(c, Init(t0), steps, OneAccepted(t0, item))
  {
    steps := EnterMany(c, t0, item, 1);
    var s := Init(t0).(calls := WaitingCalls(0, 1, item));
    steps, s := Advance(c, Init(t0), steps, s, AddSend(0));
    assert s.calls == map[];
    assert s.buffer == [item];
    assert s == OneAccepted(t0, item);
  }

  /** ... and then two overlapping Close calls, the second of which has returned. */
  function SecondCloseReturned(t0: Table, item: PacketMax): State {
    OneAccepted(t0, item).(closed := true, closing := Closing(map[0 := Joining], true, 1, 1, 1, true),
                           log := Log([item], [], [], [], Some(Mark(1, 0)), 0))
  }

  lemma ReachSecondClose(c: Config, t0: Table, item: PacketMax) returns (steps: seq<Step>)
    requires ValidConfig(c) && ValidatePacketMax(item).Ok?
    ensures Runs(c, Init(t0), steps, SecondCloseReturned(t0, item))
  {
    hide Runs, ValidatePacketMax;
    steps := ReachOneAccepted(c, t0, item);
    var s := OneAccepted(t0, item);
    assert Waiters(s.calls) == {};
    steps, s := Advance(c, Init(t0), steps, s, CloseEnter(0));
    steps, s := Advance(c, Init(t0), steps, s, CloseLock(0));
    assert s.closing.callers == map[0 := Joining];
    steps := SecondClose(c, Init(t0), steps, s);
  }

  /** A second Close returns while the first still waits for the consumer. */
  lemma SecondClose(c: Config, s0: State, before: seq<Step>, s: State) returns (steps: seq<Step>)
    requires Runs(c, s0, before, s)
    requires s.closed && s.closing == Closing(map[0 := Joining], false, 1, 0, 0, false)
    ensures Runs(c, s0, steps, s.(closing := Closing(map[0 := Joining], true, 1, 1, 1, true)))
  {
    hide Runs, ValidatePacketMax;
    var t: State;
    assert 0 in s.closing.callers;
    steps, t := Advance(c, s0, before, s, CloseEnter(1));
    steps, t := Advance(c, s0, steps, t, CloseLock(1));
    assert t.closing.callers == map[0 := Joining, 1 := AtOnce(false)];
    steps, t := Advance(c, s0, steps, t, CloseOnce(1));
    assert t.closing.callers == map[0 := Joining];
    assert t.closing == Closing(map[0 := Joining], true, 1, 1, 1, true);
    assert t == s.(closing := t.closing);
  }

  lemma LateWrite(c: Config, t0: Table, item: PacketMax) returns (steps: seq<Step>, end: State)
    requires ValidConfig(c)
    ensures Runs(c, SecondCloseReturned(t0, item), steps, end) && end.log.lateWrites == 1
  {
    hide Runs, ValidatePacketMax;
    var mid := SecondCloseReturned(t0, item);
    steps, end := Advance(c, mid, [], mid, Stop);
    steps, end := Advance(c, mid, steps, end, Receive(0));
    if c.batchSize > 1 {
      steps, end := Advance(c, mid, steps, end, Finish);
    }
    steps, end := Advance(c, mid, steps, end, WriteNext(NO_FAULTS));
  }

  /** Overlapping Close calls: the second returns, having closed the runner, while an accepted item
      still waits; that item is then written through the closed runner. */
  lemma OverlappingCloseDoesNotWait(c: Config, t0: Table, item: PacketMax)
    returns (before: seq<Step>, mid: State, after: seq<Step>, end: State)
    requires ValidConfig(c) && ValidatePacketMax(item).Ok?
    ensures Reachable(c, t0, before, mid) && Runs(c, mid, after, end)
    ensures mid.closing.completed == 1 && mid.closing.runnerCloses == 1 && mid.buffer == [item]
    ensures end.log.lateWrites == 1
  {
    before := ReachSecondClose(c, t0, item);
    mid := SecondCloseReturned(t0, item);
    after, end := LateWrite(c, t0, item);
  }
}
