/** Progress of the repository: what its consumer still has to do, and that it can always do it. */
module BatcherProgress {
  import opened Domain
  import opened PacketTable
  import opened Batcher

  function PcWeight(pc: ConsumerPc): nat {
    match pc
    case Selecting => 10
    case Draining => 5
    case Flushing(reason, _, draining) => 3 + (if reason.Final? then 0 else if draining then 5 else 10)
    case Exited => 0
  }

  function TimerWeight(timer: Option<Timer>): nat {
    if timer.None? || timer.value.Spent? then 0 else if timer.value.Ticked? then 5 else 6
  }

  function BatchWeight(k: Consumer): nat {
    if k.pc.Flushing? then (if k.pc.next <= |k.batch| then 2 * (|k.batch| - k.pc.next) else 0) else 2 * |k.batch|
  }

  function Unchecked(calls: map<nat, Call>): set<nat> {
    set id | id in calls && calls[id].Entered?
  }

  function RepoWeight(s: State): nat {
    20 * |s.buffer| + |Unchecked(s.calls)| + PcWeight(s.consumer.pc) + BatchWeight(s.consumer)
    + TimerWeight(s.consumer.timer)
  }

  // ---------------------------------------------------------------- every step uses up work

  lemma ConsumeDecreases(c: Config, t0: Table, s: State, step: Step)
    requires Inv(c, t0, s) && IsConsume(step) && ConsumeEnabled(s, step)
    ensures RepoWeight(ConsumeApply(c, s, step)) < RepoWeight(s)
    ensures ConsumeApply(c, s, step).closing == s.closing
  {
    hide FlowInv, StopInv, CloseInv, FlushSizes, Replay, Write, Concat;
  }

  lemma UncheckedAfter(calls: map<nat, Call>, id: nat, call: Call)
    ensures Unchecked(calls[id := call]) == if call.Entered? then Unchecked(calls) + {id} else Unchecked(calls) - {id}
    ensures Unchecked(calls - {id}) == Unchecked(calls) - {id}
    ensures id in Unchecked(calls) <==> id in calls && calls[id].Entered?
  { }

  lemma UncheckedAfterAdd(c: Config, s: State, step: Step)
    requires IsAdd(step) && AddEnabled(c, s, step)
    ensures var before, after := |Unchecked(s.calls)|, |Unchecked(AddApply(c, s, step).calls)|;
      && after <= before + (if step.AddEnter? then 1 else 0)
      && (step.AddCheck? && !s.closed ==> after < before)
  {
    var call := if step.AddEnter? then Entered(step.item) else Waiting(s.calls[step.id].item);
    UncheckedAfter(s.calls, step.id, call);
    hide ValidatePacketMax, Unchecked;
  }

  lemma AddWeight(c: Config, s: State, step: Step)
    requires IsAdd(step) && AddEnabled(c, s, step)
    ensures var r := AddApply(c, s, step);
      && RepoWeight(r) <= RepoWeight(s) + (if step.AddSend? then 20 else if step.AddEnter? then 1 else 0)
      && (step.AddCheck? && !s.closed ==> RepoWeight(r) < RepoWeight(s))
      && r.closing == s.closing
  {
    UncheckedAfterAdd(c, s, step);
    hide Unchecked, PcWeight, BatchWeight, TimerWeight, ValidatePacketMax;
  }

  lemma ConsumerCanStep(c: Config, t0: Table, s: State) returns (step: Step)
    requires Inv(c, t0, s) && !s.consumer.pc.Exited?
    requires s.closed || s.buffer != [] || s.consumer.pc.Flushing?
    ensures IsConsume(step) && Enabled(c, s, step)
  {
    var pc := s.consumer.pc;
    if pc.Flushing? {
      step := if pc.next < |s.consumer.batch| then WriteNext(NO_FAULTS) else EndFlush;
    } else if s.buffer != [] {
      step := Receive(0);
    } else if pc.Selecting? {
      step := Stop;
    } else {
      step := Finish;
    }
  }

  // ---------------------------------------------------------------- the consumer on its own

  /** A consumer step of a closed repository leaves the callers and the accepted items, and the
      consumer takes its last look at the buffer only when that is empty. */
  lemma ConsumeAlone(c: Config, s: State, step: Step)
    requires s.closed && IsConsume(step) && Enabled(c, s, step)
    ensures var r := Apply(c, s, step);
      && r.closed && r.calls == s.calls && r.closing == s.closing
      && r.log.accepted == s.log.accepted
      && (Finished(s.consumer.pc) ==> Finished(r.consumer.pc) && r.buffer == s.buffer)
      && (!Finished(s.consumer.pc) && Finished(r.consumer.pc) ==> r.buffer == [])
  {
    hide Write, ActivateTimer, AddApply, AddEnabled, CloseApply, CloseEnabled;
  }

  /** After the stop the consumer, left alone, returns: with an empty buffer, unless it had already
      taken its last look at it. */
  lemma {:induction false} Drains(c: Config, t0: Table, s: State) returns (steps: seq<Step>, t: State)
    requires Inv(c, t0, s) && s.closed
    ensures Runs(c, s, steps, t) && t.consumer.pc.Exited? && t.calls == s.calls
    ensures t.log.accepted == s.log.accepted
    ensures t.buffer == if Finished(s.consumer.pc) then s.buffer else []
    ensures forall step :: step in steps ==> IsConsume(step)
    decreases RepoWeight(s)
  {
    if s.consumer.pc.Exited? {
      steps, t := [], s;
    } else {
      var step := ConsumerCanStep(c, t0, s);
      ConsumeDecreases(c, t0, s, step);
      ConsumeAlone(c, s, step);
      StepInv(c, t0, s, step);
      assert Apply(c, s, step) == ConsumeApply(c, s, step);
      hide Inv, RepoWeight, Apply, Enabled, ConsumeApply, Finished, IsConsume;
      var rest: seq<Step>;
      rest, t := Drains(c, t0, Apply(c, s, step));
      steps := [step] + rest;
    }
  }
}
