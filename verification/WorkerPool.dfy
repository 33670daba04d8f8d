/** The worker pool as a protocol: N workers share one bounded packet channel; with N = 0 the pool
    only drains it (app/src/core/worker_pool.go). */
module WorkerPool {
  import opened Domain
  import opened MaxMeasurement

  /** Where a worker is: at its select, inside findMaxMeasurement having looked at i measurements,
      inside Add, or returned. */
  datatype Worker =
    | AtSelect
    | Scanning(packet: DataPacket, i: nat, best: Option<Measurement>)
    | Adding(packet: DataPacket, item: PacketMax)
    | Gone

  /** One call of Add: the packet and the item made from it. */
  datatype Job = Job(packet: DataPacket, item: PacketMax)

  /** History: packets sent and taken, packets given up without an Add, and the Adds that returned
      nil (stored) or an error (refused), in the order of their returns. */
  datatype State = State(queue: seq<DataPacket>, channelClosed: bool, cancelled: bool,
                         workers: seq<Worker>, draining: bool,
                         sent: seq<DataPacket>, taken: seq<DataPacket>, skipped: seq<DataPacket>,
                         stored: seq<Job>, refused: seq<Job>)

  function Init(n: nat): State {
    State([], false, false, seq(n, _ => AtSelect), n == 0, [], [], [], [], [])
  }

  datatype Step =
    | Send(packet: DataPacket) | CloseChannel | Cancel
    | Take(w: nat) | Scan(w: nat) | AddReturns(w: nat, ok: bool) | Leave(w: nat)
    | Drain | DrainLeave

  predicate IsWorkerStep(step: Step) {
    !step.Send? && !step.CloseChannel? && !step.Cancel?
  }

  predicate Enabled(capacity: nat, s: State, step: Step) {
    match step
    case Send(_) => !s.channelClosed && |s.queue| < capacity
    case CloseChannel => !s.channelClosed
    case Cancel => true
    case Take(w) => w < |s.workers| && s.workers[w].AtSelect? && s.queue != []
    case Scan(w) => w < |s.workers| && s.workers[w].Scanning? && s.workers[w].i <= |s.workers[w].packet.measurements|
    case AddReturns(w, _) => w < |s.workers| && s.workers[w].Adding?
    case Leave(w) =>
      w < |s.workers| && s.workers[w].AtSelect? && (s.cancelled || (s.channelClosed && s.queue == []))
    case Drain => s.draining && s.queue != []
    case DrainLeave => s.draining && (s.cancelled || (s.channelClosed && s.queue == []))
  }

  function SetWorker(s: State, w: nat, v: Worker): State
    requires w < |s.workers|
  {
    s.(workers := s.workers[w := v])
  }

  function Skip(s: State, p: DataPacket): State { s.(skipped := s.skipped + [p]) }

  function TakeFront(s: State): State
    requires s.queue != []
  {
    s.(queue := s.queue[1..], taken := s.taken + [s.queue[0]])
  }

  /** One iteration of findMaxMeasurement, or its end: before each measurement the context is read;
      after the last one the maximum goes to Add. */
  function ScanApply(s: State, w: nat): State
    requires Enabled(0, s, Scan(w))
  {
    var Scanning(p, i, best) := s.workers[w];
    if i < |p.measurements| then
      if s.cancelled then SetWorker(Skip(s, p), w, AtSelect)
      else SetWorker(s, w, Scanning(p, i + 1, Pick(best, p.measurements[i])))
    else if best.None? then SetWorker(Skip(s, p), w, AtSelect)
    else SetWorker(s, w, Adding(p, ToPacketMax(best.value)))
  }

  function Apply(capacity: nat, s: State, step: Step): State
    requires Enabled(capacity, s, step)
  {
    match step
    case Send(p) => s.(queue := s.queue + [p], sent := s.sent + [p])
    case CloseChannel => s.(channelClosed := true)
    case Cancel => s.(cancelled := true)
    case Take(w) =>
      var p := s.queue[0];
      if p.measurements == [] then Skip(TakeFront(s), p) else SetWorker(TakeFront(s), w, Scanning(p, 0, None))
    case Scan(w) => ScanApply(s, w)
    case AddReturns(w, ok) =>
      var job := Job(s.workers[w].packet, s.workers[w].item);
      SetWorker(if ok then s.(stored := s.stored + [job]) else s.(refused := s.refused + [job]), w, AtSelect)
    case Leave(w) => SetWorker(s, w, Gone)
    case Drain => Skip(TakeFront(s), s.queue[0])
    case DrainLeave => s.(draining := false)
  }

  predicate Runs(capacity: nat, s: State, steps: seq<Step>, t: State)
    decreases |steps|
  {
    if steps == [] then s == t
    else Enabled(capacity, s, steps[0]) && Runs(capacity, Apply(capacity, s, steps[0]), steps[1..], t)
  }

  // ---------------------------------------------------------------- invariant

  function Hand(v: Worker): multiset<DataPacket> {
    if v.Scanning? || v.Adding? then multiset{v.packet} else multiset{}
  }

  /** The packets the workers hold. */
  function Hands(ws: seq<Worker>): multiset<DataPacket> {
    if ws == [] then multiset{} else Hand(ws[0]) + Hands(ws[1..])
  }

  function Packets(jobs: seq<Job>): (r: seq<DataPacket>)
    ensures |r| == |jobs|
    ensures forall i :: 0 <= i < |r| ==> r[i] == jobs[i].packet
  {
    seq(|jobs|, i requires 0 <= i < |jobs| => jobs[i].packet)
  }

  predicate WorkerInv(v: Worker) {
    match v
    case Scanning(p, i, best) =>
      p.measurements != [] && i <= |p.measurements| && best == MaxOf(p.measurements[..i])
    case Adding(p, item) => IsJob(Job(p, item))
    case _ => true
  }

  /** The item of a job is the maximum of its packet. */
  predicate IsJob(job: Job) { IsMaximumOf(job.item, job.packet) }

  predicate AllJobs(jobs: seq<Job>) { forall job :: job in jobs ==> IsJob(job) }

  /** Where the packets taken are: given up, in hand, stored, refused. */
  function Places(s: State): multiset<DataPacket> {
    multiset(s.skipped) + Hands(s.workers) + multiset(Packets(s.stored)) + multiset(Packets(s.refused))
  }

  /** Every packet taken is in one place: given up, in a worker's hands, or through with Add. */
  predicate Conserved(s: State) {
    && s.sent == s.taken + s.queue
    && multiset(s.taken) == Places(s)
  }

  predicate WorkersInv(s: State) { forall w :: 0 <= w < |s.workers| ==> WorkerInv(s.workers[w]) }

  /** Only empty packets are given up, unless the pool is cancelled or has no worker. */
  predicate SkipsInv(s: State) {
    s.cancelled || |s.workers| == 0 || forall p :: p in s.skipped ==> p.measurements == []
  }

  /** Nobody leaves before cancellation or the end of the packets. */
  predicate ExitInv(s: State) {
    && (s.draining ==> |s.workers| == 0)
    && (s.cancelled || (s.channelClosed && s.queue == [])
        || ((|s.workers| == 0 ==> s.draining) && forall w :: 0 <= w < |s.workers| ==> !s.workers[w].Gone?))
  }

  predicate Inv(s: State) {
    Conserved(s) && WorkersInv(s) && AllJobs(s.stored) && AllJobs(s.refused) && SkipsInv(s) && ExitInv(s)
  }

  lemma {:induction false} HandsUpdate(ws: seq<Worker>, w: nat, v: Worker)
    requires w < |ws|
    ensures Hands(ws[w := v]) + Hand(ws[w]) == Hands(ws) + Hand(v)
  {
    var us := ws[w := v];
    if w == 0 {
      assert us[1..] == ws[1..];
      Exchange(Hands(ws[1..]), Hand(ws[0]), Hand(v));
    } else {
      HandsUpdate(ws[1..], w - 1, v);
      assert us[1..] == ws[1..][w - 1 := v];
      Regroup(Hand(ws[0]), Hands(us[1..]), Hand(ws[w]), Hands(ws[1..]), Hand(v));
    }
  }

  lemma Exchange<T>(rest: multiset<T>, a: multiset<T>, b: multiset<T>)
    ensures b + rest + a == a + rest + b
  { }

  lemma Cancelled<T>(x: multiset<T>, y: multiset<T>, a: multiset<T>)
    requires x + a == y + a
    ensures x == y
  {
    assert x == (x + a) - a;
    assert y == (y + a) - a;
  }

  lemma Regroup<T>(head: multiset<T>, x: multiset<T>, a: multiset<T>, y: multiset<T>, b: multiset<T>)
    requires x + a == y + b
    ensures head + x + a == head + y + b
  {
    assert head + x + a == head + (x + a);
    assert head + y + b == head + (y + b);
  }

  lemma {:induction false} InHands(ws: seq<Worker>, w: nat)
    requires w < |ws|
    ensures Hand(ws[w]) <= Hands(ws)
  {
    if w > 0 {
      InHands(ws[1..], w - 1);
    }
  }

  lemma {:induction false} EmptyHands(ws: seq<Worker>)
    requires forall w :: 0 <= w < |ws| ==> ws[w].AtSelect? || ws[w].Gone?
    ensures Hands(ws) == multiset{}
  {
    if ws != [] {
      assert forall w :: 0 <= w < |ws[1..]| ==> ws[1..][w] == ws[w + 1];
      EmptyHands(ws[1..]);
    }
  }

  lemma InitInv(n: nat)
    ensures Inv(Init(n))
  {
    EmptyHands(Init(n).workers);
  }

  lemma TakeConserves(s: State)
    requires s.sent == s.taken + s.queue && s.queue != []
    ensures s.sent == TakeFront(s).taken + TakeFront(s).queue
    ensures multiset(TakeFront(s).taken) == multiset(s.taken) + multiset{s.queue[0]}
  {
    assert s.queue == [s.queue[0]] + s.queue[1..];
    assert s.taken + ([s.queue[0]] + s.queue[1..]) == (s.taken + [s.queue[0]]) + s.queue[1..];
  }

  lemma JobConserves(jobs: seq<Job>, job: Job)
    ensures multiset(Packets(jobs + [job])) == multiset(Packets(jobs)) + multiset{job.packet}
  {
    assert Packets(jobs + [job]) == Packets(jobs) + [job.packet];
  }

  /** A packet moves into a worker's hand. */
  lemma PlacesTaken(a: multiset<DataPacket>, h: multiset<DataPacket>, h': multiset<DataPacket>,
                    b: multiset<DataPacket>, c: multiset<DataPacket>, p: multiset<DataPacket>)
    requires h' == h + p
    ensures a + h' + b + c == a + h + b + c + p
  { }

  /** A packet moves out of a worker's hand, to one of the other places. */
  lemma PlacesMoved(a: multiset<DataPacket>, h: multiset<DataPacket>, h': multiset<DataPacket>,
                    b: multiset<DataPacket>, c: multiset<DataPacket>, p: multiset<DataPacket>)
    requires h' + p == h
    ensures (a + p) + h' + b + c == a + h + b + c
    ensures a + h' + (b + p) + c == a + h + b + c
    ensures a + h' + b + (c + p) == a + h + b + c
  { }

  lemma StepConserves(capacity: nat, s: State, step: Step)
    requires Conserved(s) && Enabled(capacity, s, step)
    ensures Conserved(Apply(capacity, s, step))
  {
    hide Conserved;
    match step {
      case Take(w) => TakeStepConserves(capacity, s, w);
      case Scan(w) => ScanConserves(s, w);
      case AddReturns(w, ok) => ReturnConserves(capacity, s, w, ok);
      case Leave(w) => KeepHand(s, w, Gone);
      case Drain => DrainConserves(capacity, s);
      case _ => ChannelConserves(capacity, s, step);
    }
  }

  lemma ChannelConserves(capacity: nat, s: State, step: Step)
    requires Conserved(s) && Enabled(capacity, s, step)
    requires step.Send? || step.CloseChannel? || step.Cancel? || step.DrainLeave?
    ensures Conserved(Apply(capacity, s, step))
  {
    if step.Send? {
      assert s.taken + (s.queue + [step.packet]) == s.taken + s.queue + [step.packet];
    }
  }

  lemma SameHand(ws: seq<Worker>, w: nat, v: Worker)
    requires w < |ws| && Hand(ws[w]) == Hand(v)
    ensures Hands(ws[w := v]) == Hands(ws)
  {
    HandsUpdate(ws, w, v);
    Cancelled(Hands(ws[w := v]), Hands(ws), Hand(v));
  }

  lemma SkipPlaces(s: State, p: DataPacket)
    ensures Places(Skip(s, p)) == Places(s) + multiset{p}
  {
    var h := Hands(s.workers);
    PlacesMoved(multiset(s.skipped), h + multiset{p}, h, multiset(Packets(s.stored)), multiset(Packets(s.refused)),
                multiset{p});
    PlacesTaken(multiset(s.skipped), h, h + multiset{p}, multiset(Packets(s.stored)),
                multiset(Packets(s.refused)), multiset{p});
  }

  lemma DrainConserves(capacity: nat, s: State)
    requires Conserved(s) && Enabled(capacity, s, Drain)
    ensures Conserved(Apply(capacity, s, Drain))
  {
    TakeConserves(s);
    SkipPlaces(TakeFront(s), s.queue[0]);
  }

  lemma TakeStepConserves(capacity: nat, s: State, w: nat)
    requires Conserved(s) && Enabled(capacity, s, Take(w))
    ensures Conserved(Apply(capacity, s, Take(w)))
  {
    TakeConserves(s);
    var p, h := s.queue[0], Hands(s.workers);
    if p.measurements == [] {
      SkipPlaces(TakeFront(s), p);
    } else {
      var v := Scanning(p, 0, None);
      HandsUpdate(s.workers, w, v);
      PlacesTaken(multiset(s.skipped), h, Hands(s.workers[w := v]), multiset(Packets(s.stored)),
                  multiset(Packets(s.refused)), multiset{p});
    }
  }

  lemma KeepHand(s: State, w: nat, v: Worker)
    requires Conserved(s) && w < |s.workers| && Hand(s.workers[w]) == Hand(v)
    ensures Conserved(SetWorker(s, w, v))
  {
    SameHand(s.workers, w, v);
  }

  lemma DropHand(s: State, w: nat, p: DataPacket)
    requires Conserved(s) && w < |s.workers| && Hand(s.workers[w]) == multiset{p}
    ensures Conserved(SetWorker(Skip(s, p), w, AtSelect))
  {
    HandsUpdate(s.workers, w, AtSelect);
    PlacesMoved(multiset(s.skipped), Hands(s.workers), Hands(s.workers[w := AtSelect]),
                multiset(Packets(s.stored)), multiset(Packets(s.refused)), multiset{p});
    assert multiset(s.skipped + [p]) == multiset(s.skipped) + multiset{p};
  }

  lemma ScanConserves(s: State, w: nat)
    requires Conserved(s) && Enabled(0, s, Scan(w))
    ensures Conserved(ScanApply(s, w))
  {
    hide Conserved;
    var Scanning(p, i, best) := s.workers[w];
    if i < |p.measurements| && !s.cancelled {
      KeepHand(s, w, Scanning(p, i + 1, Pick(best, p.measurements[i])));
    } else if i < |p.measurements| || best.None? {
      DropHand(s, w, p);
    } else {
      KeepHand(s, w, Adding(p, ToPacketMax(best.value)));
    }
  }

  lemma ReturnConserves(capacity: nat, s: State, w: nat, ok: bool)
    requires Conserved(s) && Enabled(capacity, s, AddReturns(w, ok))
    ensures Conserved(Apply(capacity, s, AddReturns(w, ok)))
  {
    var job := Job(s.workers[w].packet, s.workers[w].item);
    HandsUpdate(s.workers, w, AtSelect);
    JobConserves(if ok then s.stored else s.refused, job);
    PlacesMoved(multiset(s.skipped), Hands(s.workers), Hands(s.workers[w := AtSelect]),
                multiset(Packets(s.stored)), multiset(Packets(s.refused)), multiset{job.packet});
  }

  /** The running maximum of a scan, and the item made at its end, are those of the packet. */
  lemma ScanWorker(s: State, w: nat)
    requires w < |s.workers| && WorkerInv(s.workers[w]) && Enabled(0, s, Scan(w))
    ensures WorkerInv(ScanApply(s, w).workers[w])
    ensures ScanApply(s, w).workers[w].AtSelect? ==> s.cancelled
  {
    var v := s.workers[w];
    var ms := v.packet.measurements;
    var k := MaximumRecord(v.packet);
    if v.i < |ms| {
      assert ms[..v.i + 1][..v.i] == ms[..v.i];
    } else {
      assert ms[..|ms|] == ms;
    }
  }

  lemma StepWorkers(capacity: nat, s: State, step: Step)
    requires WorkersInv(s) && Enabled(capacity, s, step)
    ensures WorkersInv(Apply(capacity, s, step))
  {
    hide IsJob;
    match step {
      case Scan(w) =>
        assert WorkerInv(s.workers[w]);
        ScanWorker(s, w);
      case Take(w) =>
        assert s.queue[0].measurements[..0] == [];
      case _ =>
    }
  }

  lemma StepJobs(capacity: nat, s: State, step: Step)
    requires WorkersInv(s) && AllJobs(s.stored) && AllJobs(s.refused) && Enabled(capacity, s, step)
    ensures AllJobs(Apply(capacity, s, step).stored) && AllJobs(Apply(capacity, s, step).refused)
  {
    hide IsJob;
    if step.AddReturns? {
      assert WorkerInv(s.workers[step.w]);
    }
  }

  lemma StepSkips(capacity: nat, s: State, step: Step)
    requires SkipsInv(s) && WorkersInv(s) && (s.draining ==> |s.workers| == 0) && Enabled(capacity, s, step)
    ensures SkipsInv(Apply(capacity, s, step))
  {
    if step.Scan? {
      assert WorkerInv(s.workers[step.w]);
      ScanWorker(s, step.w);
    }
  }

  lemma StepExit(capacity: nat, s: State, step: Step)
    requires ExitInv(s) && Enabled(capacity, s, step)
    ensures ExitInv(Apply(capacity, s, step))
  { }

  lemma StepInv(capacity: nat, s: State, step: Step)
    requires Inv(s) && Enabled(capacity, s, step)
    ensures Inv(Apply(capacity, s, step))
  {
    StepConserves(capacity, s, step);
    StepWorkers(capacity, s, step);
    StepJobs(capacity, s, step);
    StepSkips(capacity, s, step);
    StepExit(capacity, s, step);
  }

  lemma {:induction false} RunInv(capacity: nat, s: State, steps: seq<Step>, t: State)
    requires Inv(s) && Runs(capacity, s, steps, t)
    ensures Inv(t)
    decreases |steps|
  {
    if steps != [] {
      StepInv(capacity, s, steps[0]);
      RunInv(capacity, Apply(capacity, s, steps[0]), steps[1..], t);
    }
  }

  // ---------------------------------------------------------------- completeness

  /** wg.Wait has been passed, or the drain has returned. */
  predicate Finished(s: State) {
    !s.draining && forall w :: 0 <= w < |s.workers| ==> s.workers[w].Gone?
  }

  function NonEmpty(ps: seq<DataPacket>): seq<DataPacket> {
    if ps == [] then []
    else NonEmpty(ps[..|ps| - 1]) + (if ps[|ps| - 1].measurements == [] then [] else [ps[|ps| - 1]])
  }

  function Map<T, U>(f: T -> U, xs: seq<T>): (r: seq<U>)
    ensures |r| == |xs|
    ensures forall i :: 0 <= i < |xs| ==> r[i] == f(xs[i])
  {
    seq(|xs|, i requires 0 <= i < |xs| => f(xs[i]))
  }

  function ItemOf(p: DataPacket): Option<PacketMax> {
    var m := MaxOf(p.measurements);
    if m.None? then None else Some(ToPacketMax(m.value))
  }

  /** The items that Add should be called with. */
  function MaximaOf(ps: seq<DataPacket>): seq<Option<PacketMax>> { Map(ItemOf, ps) }

  function CalledWith(jobs: seq<Job>): (r: seq<Option<PacketMax>>)
    ensures |r| == |jobs|
  {
    seq(|jobs|, i requires 0 <= i < |jobs| => Some(jobs[i].item))
  }

  lemma {:induction false} NonEmptyCount(ps: seq<DataPacket>, p: DataPacket)
    ensures multiset(NonEmpty(ps))[p] == if p.measurements == [] then 0 else multiset(ps)[p]
  {
    if ps != [] {
      NonEmptyCount(ps[..|ps| - 1], p);
      assert ps == ps[..|ps| - 1] + [ps[|ps| - 1]];
    }
  }

  lemma {:induction false} MapPermuted<T, U>(f: T -> U, a: seq<T>, b: seq<T>)
    requires multiset(a) <= multiset(b)
    ensures multiset(Map(f, a)) <= multiset(Map(f, b))
  {
    hide Map;
    if a != [] {
      var i := RestPermuted(a, b);
      MapPermuted(f, a[1..], b[..i] + b[i + 1..]);
      MapRemove(f, a, 0);
      MapRemove(f, b, i);
      assert a[..0] + a[1..] == a[1..];
    }
  }

  lemma RestPermuted<T>(a: seq<T>, b: seq<T>) returns (i: nat)
    requires a != [] && multiset(a) <= multiset(b)
    ensures i < |b| && b[i] == a[0] && multiset(a[1..]) <= multiset(b[..i] + b[i + 1..])
  {
    assert a[0] in multiset(a);
    i :| 0 <= i < |b| && b[i] == a[0];
    RemoveOne(a, 0);
    RemoveOne(b, i);
    assert a[..0] + a[1..] == a[1..];
    forall p ensures multiset(a[1..])[p] <= multiset(b[..i] + b[i + 1..])[p] {
      assert multiset(a)[p] <= multiset(b)[p];
    }
  }

  lemma RemoveOne<T>(b: seq<T>, i: nat)
    requires i < |b|
    ensures multiset(b) == multiset(b[..i] + b[i + 1..]) + multiset{b[i]}
  {
    assert b == b[..i] + ([b[i]] + b[i + 1..]);
  }

  lemma MapRemove<T, U>(f: T -> U, b: seq<T>, i: nat)
    requires i < |b|
    ensures multiset(Map(f, b)) == multiset(Map(f, b[..i] + b[i + 1..])) + multiset{f(b[i])}
  {
    var ms := Map(f, b);
    RemoveOne(ms, i);
    assert ms[..i] + ms[i + 1..] == Map(f, b[..i] + b[i + 1..]);
  }

  lemma JobsAreMaxima(jobs: seq<Job>)
    requires AllJobs(jobs)
    ensures CalledWith(jobs) == MaximaOf(Packets(jobs))
    ensures forall p :: p in Packets(jobs) ==> p.measurements != []
  {
    forall i | 0 <= i < |jobs| ensures CalledWith(jobs)[i] == MaximaOf(Packets(jobs))[i] && IsJob(jobs[i]) {
      assert jobs[i] in jobs;
      MaximumRecordIsUnique(jobs[i].item, jobs[i].packet);
    }
  }

  /** In every run, the finished Adds are a sub-multiset of the maxima of the non-empty packets
      sent: no packet reaches Add twice, and nothing but a maximum reaches it. */
  lemma AddsAreSubMultiset(capacity: nat, n: nat, steps: seq<Step>, s: State)
    requires Runs(capacity, Init(n), steps, s)
    ensures multiset(Packets(s.stored + s.refused)) <= multiset(NonEmpty(s.sent))
    ensures multiset(CalledWith(s.stored + s.refused)) <= multiset(MaximaOf(NonEmpty(s.sent)))
    ensures forall job :: job in s.stored + s.refused ==> IsMaximumOf(job.item, job.packet)
    ensures n == 0 ==> s.stored + s.refused == []
  {
    InitInv(n);
    RunInv(capacity, Init(n), steps, s);
    WorkerCountKept(capacity, Init(n), steps, s);
    var jobs := s.stored + s.refused;
    JobsAreMaxima(jobs);
    assert Packets(jobs) == Packets(s.stored) + Packets(s.refused);
    forall p ensures multiset(Packets(jobs))[p] <= multiset(NonEmpty(s.sent))[p] {
      NonEmptyCount(s.sent, p);
      assert multiset(s.sent)[p] == multiset(s.taken)[p] + multiset(s.queue)[p];
      if p.measurements == [] {
        assert p !in Packets(jobs);
      }
    }
    MapPermuted(ItemOf, Packets(jobs), NonEmpty(s.sent));
  }

  lemma {:induction false} WorkerCountKept(capacity: nat, s: State, steps: seq<Step>, t: State)
    requires Runs(capacity, s, steps, t)
    ensures |t.workers| == |s.workers|
    ensures s.workers == [] ==> t.stored == s.stored && t.refused == s.refused
    decreases |steps|
  {
    if steps != [] {
      WorkerCountKept(capacity, Apply(capacity, s, steps[0]), steps[1..], t);
    }
  }

  /** Completeness: when the pool has returned without cancellation, and there is a worker, Add was
      called exactly once for each non-empty packet sent, with that packet's maximum. */
  lemma PoolIsComplete(capacity: nat, n: nat, steps: seq<Step>, s: State)
    requires Runs(capacity, Init(n), steps, s)
    requires n >= 1 && !s.cancelled && Finished(s)
    ensures s.queue == [] && s.channelClosed
    ensures multiset(Packets(s.stored + s.refused)) == multiset(NonEmpty(s.sent))
    ensures multiset(CalledWith(s.stored + s.refused)) == multiset(MaximaOf(NonEmpty(s.sent)))
    ensures forall job :: job in s.stored + s.refused ==> IsMaximumOf(job.item, job.packet)
  {
    AddsAreSubMultiset(capacity, n, steps, s);
    InitInv(n);
    RunInv(capacity, Init(n), steps, s);
    WorkerCountKept(capacity, Init(n), steps, s);
    assert s.workers[0].Gone?;
    AllPacketsArrive(s);
    JobsAreMaxima(s.stored + s.refused);
    MapPermuted(ItemOf, NonEmpty(s.sent), Packets(s.stored + s.refused));
  }

  lemma AllPacketsArrive(s: State)
    requires Inv(s) && Finished(s) && s.queue == [] && !s.cancelled && s.workers != []
    ensures multiset(NonEmpty(s.sent)) <= multiset(Packets(s.stored + s.refused))
  {
    EmptyHands(s.workers);
    var jobs := s.stored + s.refused;
    assert Packets(jobs) == Packets(s.stored) + Packets(s.refused);
    assert s.sent == s.taken;
    forall p ensures multiset(NonEmpty(s.sent))[p] <= multiset(Packets(jobs))[p] {
      NonEmptyCount(s.sent, p);
      if p.measurements != [] {
        assert p !in s.skipped;
        assert multiset(s.taken)[p] == multiset(s.skipped)[p] + multiset(Packets(jobs))[p];
      }
    }
  }

  // ---------------------------------------------------------------- cancellation

  /** The worker is in Add, or has looked at every measurement of its packet. */
  predicate Decided(v: Worker) {
    v.Adding? || (v.Scanning? && v.i >= |v.packet.measurements|)
  }

  predicate HasDecided(s: State, p: DataPacket) {
    exists w :: 0 <= w < |s.workers| && Decided(s.workers[w]) && s.workers[w].packet == p
  }

  lemma CancelledStep(capacity: nat, s: State, step: Step, p: DataPacket)
    requires s.cancelled && Enabled(capacity, s, step)
    ensures Apply(capacity, s, step).cancelled
    ensures HasDecided(Apply(capacity, s, step), p) ==> HasDecided(s, p)
    ensures forall job :: job in Apply(capacity, s, step).stored + Apply(capacity, s, step).refused ==>
      job in s.stored + s.refused || HasDecided(s, job.packet)
  {
    var t := Apply(capacity, s, step);
    if w: nat :| w < |t.workers| && Decided(t.workers[w]) && t.workers[w].packet == p {
      assert Decided(s.workers[w]) && s.workers[w].packet == p;
    }
    if step.AddReturns? {
      assert Decided(s.workers[step.w]);
    }
  }

  /** Cancellation stops every scan at its next measurement: from then on only those packets reach the
      end of Add that were in Add already, or whose scan was complete. */
  lemma {:induction false} CancelledPoolScansNoMore(capacity: nat, s: State, steps: seq<Step>, t: State, job: Job)
    requires s.cancelled && Runs(capacity, s, steps, t) && job in t.stored + t.refused
    ensures job in s.stored + s.refused || HasDecided(s, job.packet)
    decreases |steps|
  {
    if steps != [] {
      hide Apply, Enabled, HasDecided;
      CancelledStep(capacity, s, steps[0], job.packet);
      CancelledPoolScansNoMore(capacity, Apply(capacity, s, steps[0]), steps[1..], t, job);
    }
  }

  // ---------------------------------------------------------------- termination

  function PacketWeight(p: DataPacket): nat { |p.measurements| + 32 }

  function QueueWeight(ps: seq<DataPacket>): nat {
    if ps == [] then 0 else PacketWeight(ps[0]) + QueueWeight(ps[1..])
  }

  function WorkerWeight(v: Worker): nat {
    match v
    case AtSelect => 1
    case Scanning(p, i, _) => 31 + (if i <= |p.measurements| then |p.measurements| - i else 0)
    case Adding(_, _) => 28
    case Gone => 0
  }

  function WorkersWeight(ws: seq<Worker>): nat {
    if ws == [] then 0 else WorkerWeight(ws[0]) + WorkersWeight(ws[1..])
  }

  /** Work left: queued packets, packets in hand, live workers. */
  function Measure(s: State): nat {
    QueueWeight(s.queue) + WorkersWeight(s.workers) + (if s.draining then 1 else 0)
  }

  lemma {:induction false} WorkersWeightUpdate(ws: seq<Worker>, w: nat, v: Worker)
    requires w < |ws|
    ensures WorkersWeight(ws[w := v]) == WorkersWeight(ws) - WorkerWeight(ws[w]) + WorkerWeight(v)
  {
    if w == 0 {
      assert ws[w := v][1..] == ws[1..];
    } else {
      WorkersWeightUpdate(ws[1..], w - 1, v);
      assert ws[w := v][1..] == ws[1..][w - 1 := v];
    }
  }

  /** Every step of a worker, or of the drain, uses up work. */
  lemma WorkerStepDecreases(capacity: nat, s: State, step: Step)
    requires IsWorkerStep(step) && Enabled(capacity, s, step)
    ensures Measure(Apply(capacity, s, step)) < Measure(s)
    ensures step.Scan? && Apply(capacity, s, step).workers[step.w].Adding? ==>
      Measure(Apply(capacity, s, step)) == Measure(s) - 3
    ensures step.AddReturns? ==> Measure(Apply(capacity, s, step)) == Measure(s) - 27
    ensures Apply(capacity, s, step).channelClosed == s.channelClosed
  {
    hide WorkersWeight;
    match step {
      case Take(w) =>
        var p := s.queue[0];
        if p.measurements != [] {
          WorkersWeightUpdate(s.workers, w, Scanning(p, 0, None));
        }
      case Scan(w) =>
        WorkersWeightUpdate(s.workers, w, ScanApply(s, w).workers[w]);
        ScanDecreases(s, w);
      case AddReturns(w, _) => WorkersWeightUpdate(s.workers, w, AtSelect);
      case Leave(w) => WorkersWeightUpdate(s.workers, w, Gone);
      case Drain =>
      case DrainLeave =>
    }
  }

  lemma ScanDecreases(s: State, w: nat)
    requires Enabled(0, s, Scan(w))
    ensures var r := ScanApply(s, w);
      && WorkerWeight(r.workers[w]) < WorkerWeight(s.workers[w])
      && r.workers == s.workers[w := r.workers[w]] && r.queue == s.queue && r.draining == s.draining
  { }

  /** Until the pool has returned, a worker can step, provided the channel is closed. */
  lemma WorkerCanStep(capacity: nat, s: State) returns (step: Step)
    requires Inv(s) && !Finished(s)
    requires s.channelClosed
    ensures IsWorkerStep(step) && Enabled(capacity, s, step)
  {
    if s.draining {
      step := if s.queue != [] then Drain else DrainLeave;
    } else {
      var w: nat :| w < |s.workers| && !s.workers[w].Gone?;
      assert WorkerInv(s.workers[w]);
      if s.workers[w].AtSelect? {
        step := if s.queue != [] then Take(w) else Leave(w);
      } else if s.workers[w].Scanning? {
        step := Scan(w);
      } else {
        step := AddReturns(w, true);
      }
    }
  }

  /** Once the channel is closed, every schedule of worker steps is at most Measure(s) long; it can
      only stop early by reaching the end, where the pool has returned. */
  lemma {:induction false} ClosedPoolTerminates(capacity: nat, s: State, steps: seq<Step>, t: State)
    requires Inv(s) && s.channelClosed && Runs(capacity, s, steps, t)
    requires forall step :: step in steps ==> IsWorkerStep(step)
    ensures |steps| <= Measure(s) - Measure(t)
    ensures Finished(t) || exists step :: IsWorkerStep(step) && Enabled(capacity, t, step)
    decreases |steps|
  {
    if steps == [] {
      if !Finished(s) {
        var step := WorkerCanStep(capacity, s);
      }
    } else {
      assert steps[0] in steps;
      StepInv(capacity, s, steps[0]);
      WorkerStepDecreases(capacity, s, steps[0]);
      ClosedPoolTerminates(capacity, Apply(capacity, s, steps[0]), steps[1..], t);
    }
  }
}
