/** Progress of the whole service: no deadlock while it runs, and a bounded shutdown. */
module Shutdown {
  import opened Domain
  import opened PacketTable
  import opened BatcherProgress
  import opened Pipeline
  import T = PipelineTheorems
  import P = WorkerPool
  import B = Batcher

  // ---------------------------------------------------------------- measure

  function CloserWeight(callers: map<nat, B.Closer>): nat {
    if 0 !in callers then 0
    else match callers[0]
      case Entering => 3
      case Joining => 2
      case AtOnce(_) => 1
  }

  function MainWeight(m: Main): nat {
    match m
    case Serving => 6
    case Waiting => 5
    case Closing => 1
    case Returned => 0
  }

  /** Work left once the generator has closed the channel. */
  function Measure(s: State): nat {
    P.Measure(s.pool) + RepoWeight(s.repo) + CloserWeight(s.repo.closing.callers) + MainWeight(s.main)
  }

  predicate IsElapse(step: Step) { step.Clock? && step.b.Elapse? }

  // ---------------------------------------------------------------- every step uses up work

  lemma CloseDecreases(s: State, b: B.Step)
    requires MainInv(s) && (b.CloseLock? || b.CloseJoined? || b.CloseOnce?) && B.CloseEnabled(s.repo, b)
    ensures var r := B.CloseApply(s.repo, b);
      && CloserWeight(r.closing.callers) < CloserWeight(s.repo.closing.callers)
      && RepoWeight(r) == RepoWeight(s.repo)
  { }

  lemma WorkDecreases(c: Config, s: State, p: P.Step)
    requires Enabled(c, s, Work(p))
    ensures Measure(Apply(c, s, Work(p))) < Measure(s)
  {
    P.WorkerStepDecreases(c.packetBuffer, s.pool, p);
    if ScanEnds(s, p) {
      AddWeight(c.repo, s.repo, RepoStep(s, Work(p)).value);
    }
    hide P.Measure, RepoWeight, CloserWeight, B.AddEnabled;
  }

  lemma InAddDecreases(c: Config, s: State, b: B.Step)
    requires Enabled(c, s, InAdd(b))
    ensures Measure(Apply(c, s, InAdd(b))) < Measure(s)
  {
    AddWeight(c.repo, s.repo, b);
    if Resolves(s, b) {
      P.WorkerStepDecreases(c.packetBuffer, s.pool, PoolStep(s, InAdd(b)).value);
    }
    hide P.Measure, P.Apply, RepoWeight, CloserWeight, B.AddEnabled, B.AddApply;
  }

  lemma ConsumeStepDecreases(c: Config, s: State, b: B.Step)
    requires B.Inv(c.repo, map[], s.repo) && Enabled(c, s, Consume(b))
    ensures Measure(Apply(c, s, Consume(b))) < Measure(s)
  {
    ConsumeDecreases(c.repo, map[], s.repo, b);
    hide B.Inv, P.Measure, RepoWeight, CloserWeight, B.ConsumeEnabled, B.ConsumeApply;
  }

  lemma CloseStepDecreases(c: Config, s: State, b: B.Step)
    requires MainInv(s) && Enabled(c, s, Close(b))
    ensures Measure(Apply(c, s, Close(b))) < Measure(s)
  {
    CloseDecreases(s, b);
    hide MainInv, P.Measure, RepoWeight, CloserWeight, B.CloseEnabled, B.CloseApply;
  }

  lemma ClockStep(c: Config, s: State, b: B.Step)
    requires Enabled(c, s, Clock(b))
    ensures Measure(Apply(c, s, Clock(b))) == Measure(s) - (if b.Elapse? then 0 else 1)
  {
    hide P.Measure, CloserWeight, PcWeight, Unchecked;
  }

  lemma MainStepDecreases(c: Config, s: State, step: Step)
    requires MainInv(s) && Enabled(c, s, step) && s.gen.Exited?
    requires step.Tick? || step.GenSend? || step.GenStop? || step.Cancel? || step.Join? || step.Exit?
    ensures Measure(Apply(c, s, step)) < Measure(s)
  {
    hide P.Measure, PcWeight, Unchecked;
  }

  lemma StepDecreases(c: Config, s: State, step: Step)
    requires Inv(c, s) && s.gen.Exited? && Enabled(c, s, step)
    ensures if IsElapse(step) then Measure(Apply(c, s, step)) == Measure(s)
            else Measure(Apply(c, s, step)) < Measure(s)
  {
    hide P.Inv, B.Inv, GenInv, CallsInv, LogsInv, MainInv, KeepsInv, Measure, Apply, Enabled;
    if step.Work? {
      WorkDecreases(c, s, step.p);
    } else if step.InAdd? {
      InAddDecreases(c, s, step.b);
    } else if step.Consume? {
      ConsumeStepDecreases(c, s, step.b);
    } else if step.Close? {
      CloseStepDecreases(c, s, step.b);
    } else if step.Clock? {
      ClockStep(c, s, step.b);
    } else {
      MainStepDecreases(c, s, step);
    }
  }

  lemma GenStaysExited(c: Config, s: State, step: Step)
    requires s.gen.Exited? && Enabled(c, s, step)
    ensures Apply(c, s, step).gen.Exited?
  {
    hide PoolAfter, RepoAfter, B.Enabled, P.Enabled;
  }

  // ---------------------------------------------------------------- somebody can always step

  lemma InAddReady(c: Config, s: State, b: B.Step)
    requires B.IsAdd(b) && !b.AddEnter? && (b.AddCancelled? ==> s.pool.cancelled)
    requires B.AddEnabled(c.repo, s.repo, b)
    requires b.id < |s.pool.workers| && s.pool.workers[b.id].Adding?
    ensures Enabled(c, s, InAdd(b))
  {
    hide B.AddEnabled, B.ConsumeEnabled, B.CloseEnabled;
  }

  /** A worker inside Add can go on: Add checks, then sends if there is room, or gives up on the
      cancelled context. */
  lemma AddCanStep(c: Config, s: State, w: nat) returns (step: Step)
    requires Inv(c, s) && w < |s.pool.workers| && s.pool.workers[w].Adding?
    requires s.pool.cancelled || |s.repo.buffer| < c.repo.bufferSize
    ensures Enabled(c, s, step) && step.InAdd?
  {
    ItemIsValid(c, s, w);
    assert B.CallIs(s.repo, w, true) || B.CallIs(s.repo, w, false);
    assert s.repo.calls[w].item == s.pool.workers[w].item;
    hide Inv, B.ValidatePacketMax, Enabled;
    var b := if s.repo.calls[w].Entered? then B.AddCheck(w)
             else if s.pool.cancelled then B.AddCancelled(w) else B.AddSend(w);
    InAddReady(c, s, b);
    step := InAdd(b);
  }

  /** Work that a running service still has to do. */
  predicate Busy(s: State) {
    || s.gen.Holding?
    || s.pool.queue != []
    || (exists w :: 0 <= w < |s.pool.workers| && (s.pool.workers[w].Scanning? || s.pool.workers[w].Adding?))
    || s.repo.buffer != []
    || s.repo.consumer.pc.Flushing?
  }

  /** Steps that neither the clock, the ticker nor a signal takes. */
  predicate IsInternal(step: Step) { step.GenSend? || step.Work? || step.InAdd? || step.Consume? }

  lemma NoDeadlock(c: Config, s: State) returns (step: Step)
    requires Inv(c, s) && !s.pool.cancelled && Busy(s)
    ensures IsInternal(step) && Enabled(c, s, step)
  {
    if s.repo.buffer != [] || s.repo.consumer.pc.Flushing? {
      var b := ConsumerCanStep(c.repo, map[], s.repo);
      step := Consume(b);
    } else if w: nat :| w < |s.pool.workers| && s.pool.workers[w].Adding? {
      step := AddCanStep(c, s, w);
    } else {
      step := PoolCanStep(c, s);
    }
  }

  lemma PoolCanStep(c: Config, s: State) returns (step: Step)
    requires Inv(c, s) && !s.pool.cancelled
    requires forall w :: 0 <= w < |s.pool.workers| ==> !s.pool.workers[w].Adding?
    requires s.gen.Holding? || s.pool.queue != []
      || exists w :: 0 <= w < |s.pool.workers| && s.pool.workers[w].Scanning?
    ensures IsInternal(step) && Enabled(c, s, step)
  {
    hide B.Inv, B.Apply, B.Enabled;
    if w: nat :| w < |s.pool.workers| && s.pool.workers[w].Scanning? {
      assert P.WorkerInv(s.pool.workers[w]);
      step := Work(P.Scan(w));
      ScanCallsFresh(c, s, w);
    } else if s.pool.queue == [] {
      step := GenSend;
    } else if s.pool.workers == [] {
      step := Work(P.Drain);
    } else {
      step := Work(P.Take(0));
    }
  }

  lemma ScanCallsFresh(c: Config, s: State, w: nat)
    requires CallsInv(s) && w < |s.pool.workers| && s.pool.workers[w].Scanning?
    requires P.Enabled(c.packetBuffer, s.pool, P.Scan(w))
    ensures Enabled(c, s, Work(P.Scan(w)))
  { }

  /** In every reachable state after the generator has stopped, some process other than the clock
      can step, until main has returned. */
  lemma ShutdownCanStep(c: Config, s: State) returns (step: Step)
    requires Inv(c, s) && s.gen.Exited? && !s.main.Returned?
    ensures Enabled(c, s, step) && !IsElapse(step)
  {
    if !P.Finished(s.pool) {
      step := PoolShutdownStep(c, s);
    } else if s.main.Waiting? {
      step := Join;
      assert s.repo.closing.callers == map[];
    } else {
      step := CloseShutdownStep(c, s);
    }
  }

  lemma PoolShutdownStep(c: Config, s: State) returns (step: Step)
    requires Inv(c, s) && s.gen.Exited? && !P.Finished(s.pool)
    ensures Enabled(c, s, step) && !IsElapse(step)
  {
    hide B.Inv, B.Apply;
    var p := P.WorkerCanStep(c.packetBuffer, s.pool);
    if p.AddReturns? {
      step := AddCanStep(c, s, p.w);
    } else {
      step := Work(p);
      if p.Scan? {
        ScanCallsFresh(c, s, p.w);
      }
    }
  }

  lemma CloseShutdownStep(c: Config, s: State) returns (step: Step)
    requires Inv(c, s) && s.main.Closing?
    ensures Enabled(c, s, step) && !IsElapse(step)
  {
    var callers := s.repo.closing.callers;
    if callers == map[] {
      step := Exit;
    } else {
      assert 0 in callers by {
        var id :| id in callers;
      }
      match callers[0] {
        case Entering => step := Close(B.CloseLock(0));
        case AtOnce(_) => step := Close(B.CloseOnce(0));
        case Joining =>
          if s.repo.consumer.pc.Exited? {
            step := Close(B.CloseJoined(0));
          } else {
            var b := ConsumerCanStep(c.repo, map[], s.repo);
            step := Consume(b);
          }
      }
    }
  }

  // ---------------------------------------------------------------- shutdown

  /** The steps of a run that are not the passing of time. */
  function Progress(steps: seq<Step>): nat {
    if steps == [] then 0 else (if IsElapse(steps[0]) then 0 else 1) + Progress(steps[1..])
  }

  lemma {:induction false} ShutdownIsBounded(c: Config, s: State, steps: seq<Step>, t: State)
    requires Inv(c, s) && s.gen.Exited? && Runs(c, s, steps, t)
    ensures Progress(steps) + Measure(t) <= Measure(s)
    ensures t.main.Returned? || exists step :: Enabled(c, t, step) && !IsElapse(step)
    decreases |steps|
  {
    hide Inv, Enabled, Apply, Measure;
    if steps == [] {
      if !s.main.Returned? {
        var step := ShutdownCanStep(c, s);
      }
    } else {
      StepInv(c, s, steps[0]);
      StepDecreases(c, s, steps[0]);
      GenStaysExited(c, s, steps[0]);
      ShutdownIsBounded(c, Apply(c, s, steps[0]), steps[1..], t);
    }
  }

  lemma CanShutDown(c: Config, s: State) returns (steps: seq<Step>, t: State)
    requires Inv(c, s)
    ensures Runs(c, s, steps, t) && t.main.Returned?
  {
    hide P.Inv, B.Inv, Measure;
    if s.main.Serving? {
      StepInv(c, s, Cancel);
      var rest: seq<Step>;
      rest, t := CanStop(c, Apply(c, s, Cancel));
      steps := [Cancel] + rest;
    } else {
      steps, t := CanStop(c, s);
    }
  }

  lemma CanStop(c: Config, s: State) returns (steps: seq<Step>, t: State)
    requires Inv(c, s) && s.pool.cancelled
    ensures Runs(c, s, steps, t) && t.main.Returned?
  {
    hide P.Inv, B.Inv, Measure;
    if s.gen.Exited? {
      steps, t := CanFinish(c, s);
    } else {
      StepInv(c, s, GenStop);
      var rest: seq<Step>;
      rest, t := CanFinish(c, Apply(c, s, GenStop));
      steps := [GenStop] + rest;
    }
  }

  lemma {:induction false} CanFinish(c: Config, s: State) returns (steps: seq<Step>, t: State)
    requires Inv(c, s) && s.gen.Exited?
    ensures Runs(c, s, steps, t) && t.main.Returned?
    decreases Measure(s)
  {
    hide Inv, Enabled, Apply, Measure;
    if s.main.Returned? {
      steps, t := [], s;
    } else {
      var step := ShutdownCanStep(c, s);
      StepInv(c, s, step);
      StepDecreases(c, s, step);
      GenStaysExited(c, s, step);
      var rest: seq<Step>;
      rest, t := CanFinish(c, Apply(c, s, step));
      steps := [step] + rest;
    }
  }

  /** Deadlock freedom: before cancellation, in every reachable state with work to do, however full
      the two queues are, some process can step without the clock, the ticker or a signal. */
  lemma NeverDeadlocked(c: Config, steps: seq<Step>, s: State) returns (step: Step)
    requires T.Reachable(c, steps, s) && !s.pool.cancelled && Busy(s)
    ensures IsInternal(step) && Enabled(c, s, step)
  {
    T.ReachableInv(c, steps, s);
    step := NoDeadlock(c, s);
  }

  /** Once the generator has stopped, every schedule of all the other processes takes at most
      Measure(s) steps, however the selects choose and whatever the database does; and it can only
      come to rest where main has returned. */
  lemma ShutdownTerminates(c: Config, before: seq<Step>, s: State, steps: seq<Step>, t: State)
    requires T.Reachable(c, before, s) && s.gen.Exited? && Runs(c, s, steps, t)
    ensures Progress(steps) <= Measure(s)
    ensures t.main.Returned? || exists step :: Enabled(c, t, step) && !IsElapse(step)
  {
    T.ReachableInv(c, before, s);
    ShutdownIsBounded(c, s, steps, t);
  }

  /** From every reachable state the service can shut down to the end of main. */
  lemma ShutdownIsReachable(c: Config, before: seq<Step>, s: State) returns (steps: seq<Step>, t: State)
    requires T.Reachable(c, before, s)
    ensures Runs(c, s, steps, t) && t.main.Returned?
  {
    T.ReachableInv(c, before, s);
    steps, t := CanShutDown(c, s);
  }
}
