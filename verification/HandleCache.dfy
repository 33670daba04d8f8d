/** The runner's cache of database handles, shared by concurrent callers: check, open outside the
    lock, check again (app/src/database/migrate.go). */
module HandleCache {
  import opened Domain

  type Handle = nat

  /** A dbFor call: entered; past a missed lookup; holding a handle it has opened. */
  datatype Caller = Entered(dsn: string) | Missed(dsn: string) | Holding(dsn: string, handle: Handle)

  /** A successful return of dbFor. */
  datatype Return = Return(dsn: string, handle: Handle)

  datatype State = State(dbs: map<string, Handle>, callers: map<nat, Caller>,
                         issued: set<Handle>, closed: set<Handle>, results: seq<Return>, closes: nat)

  const INIT := State(map[], map[], {}, {}, [], 0)

  datatype Step =
    | Enter(id: nat, dsn: string)
    | Lookup(id: nat)
    | OpenFails(id: nat)
    | PingFails(id: nat, handle: Handle)
    | Open(id: nat, handle: Handle)
    | Install(id: nat)
    | CloseAll

  predicate Enabled(s: State, step: Step) {
    match step
    case Enter(id, _) => id !in s.callers
    case Lookup(id) => id in s.callers && s.callers[id].Entered?
    case OpenFails(id) => id in s.callers && s.callers[id].Missed?
    case PingFails(id, h) => id in s.callers && s.callers[id].Missed? && h !in s.issued
    case Open(id, h) => id in s.callers && s.callers[id].Missed? && h !in s.issued
    case Install(id) => id in s.callers && s.callers[id].Holding?
    case CloseAll => true
  }

  /** The call returns a handle. */
  function Give(s: State, id: nat, dsn: string, h: Handle): State {
    s.(callers := s.callers - {id}, results := s.results + [Return(dsn, h)])
  }

  function Apply(s: State, step: Step): State
    requires Enabled(s, step)
  {
    match step
    case Enter(id, dsn) => s.(callers := s.callers[id := Entered(dsn)])
    case Lookup(id) =>
      var dsn := s.callers[id].dsn;
      if dsn in s.dbs then Give(s, id, dsn, s.dbs[dsn]) else s.(callers := s.callers[id := Missed(dsn)])
    case OpenFails(id) => s.(callers := s.callers - {id})
    case PingFails(id, h) =>
      s.(callers := s.callers - {id}, issued := s.issued + {h}, closed := s.closed + {h})
    case Open(id, h) => s.(callers := s.callers[id := Holding(s.callers[id].dsn, h)], issued := s.issued + {h})
    case Install(id) =>
      var Holding(dsn, h) := s.callers[id];
      if dsn in s.dbs then Give(s.(closed := s.closed + {h}), id, dsn, s.dbs[dsn])
      else Give(s.(dbs := s.dbs[dsn := h]), id, dsn, h)
    case CloseAll => s.(dbs := map[], closed := s.closed + s.dbs.Values, closes := s.closes + 1)
  }

  predicate Runs(s: State, steps: seq<Step>, t: State)
    decreases |steps|
  {
    if steps == [] then s == t else Enabled(s, steps[0]) && Runs(Apply(s, steps[0]), steps[1..], t)
  }

  /** The handles that calls under way have opened. */
  function Held(callers: map<nat, Caller>): set<Handle> {
    set id | id in callers && callers[id].Holding? :: callers[id].handle
  }

  /** No two calls hold the same handle. */
  predicate OneHolder(callers: map<nat, Caller>) {
    forall a, b :: a in callers && b in callers && callers[a].Holding? && callers[b].Holding? && a != b ==>
      callers[a].handle != callers[b].handle
  }

  /** Every handle ever opened is cached, held by a call, or closed, and in only one of these
      places, once. */
  predicate Conserved(s: State) {
    && s.issued == s.dbs.Values + Held(s.callers) + s.closed
    && s.dbs.Values !! Held(s.callers) && s.dbs.Values !! s.closed && Held(s.callers) !! s.closed
    && (forall a, b :: a in s.dbs && b in s.dbs && s.dbs[a] == s.dbs[b] ==> a == b)
    && OneHolder(s.callers)
  }

  /** Without Close, every call that has returned a handle returned the cached one. */
  predicate Agree(s: State) {
    s.closes == 0 ==> forall r :: r in s.results ==> r.dsn in s.dbs && s.dbs[r.dsn] == r.handle
  }

  lemma ValuesAfter(m: map<string, Handle>, dsn: string, h: Handle)
    requires dsn !in m
    ensures m[dsn := h].Values == m.Values + {h}
  {
    var n := m[dsn := h];
    forall v | v in m.Values + {h} ensures v in n.Values {
      if v in m.Values {
        var d :| d in m && m[d] == v;
        assert n[d] == v;
      } else {
        assert n[dsn] == v;
      }
    }
  }

  /** A call's handle leaves the held ones with it. */
  lemma HeldWithout(callers: map<nat, Caller>, id: nat)
    requires id in callers
    requires OneHolder(callers)
    ensures Held(callers - {id}) == Held(callers) - (if callers[id].Holding? then {callers[id].handle} else {})
  {
    var rest := callers - {id};
    forall h | h in Held(callers) && !(callers[id].Holding? && h == callers[id].handle) ensures h in Held(rest) {
      var a :| a in callers && callers[a].Holding? && callers[a].handle == h;
      assert a in rest;
    }
  }

  lemma HeldWith(callers: map<nat, Caller>, id: nat, v: Caller)
    requires id in callers ==> !callers[id].Holding?
    ensures Held(callers[id := v]) == Held(callers) + (if v.Holding? then {v.handle} else {})
  {
    var next := callers[id := v];
    if v.Holding? {
      assert next[id].Holding?;
    }
    forall h | h in Held(callers) ensures h in Held(next) {
      var a :| a in callers && callers[a].Holding? && callers[a].handle == h;
      assert next[a] == callers[a];
    }
  }

  lemma StepConserves(s: State, step: Step)
    requires Conserved(s) && Enabled(s, step)
    ensures Conserved(Apply(s, step))
  {
    match step {
      case Enter(id, dsn) => HeldWith(s.callers, id, Entered(dsn));
      case Lookup(id) =>
        HeldWithout(s.callers, id);
        HeldWith(s.callers, id, Missed(s.callers[id].dsn));
      case OpenFails(id) => HeldWithout(s.callers, id);
      case PingFails(id, h) => HeldWithout(s.callers, id);
      case Open(id, h) => HeldWith(s.callers, id, Holding(s.callers[id].dsn, h));
      case Install(id) => InstallConserves(s, id);
      case CloseAll =>
    }
  }

  lemma InstallConserves(s: State, id: nat)
    requires Conserved(s) && Enabled(s, Install(id))
    ensures Conserved(Apply(s, Install(id)))
  {
    var Holding(dsn, h) := s.callers[id];
    HeldWithout(s.callers, id);
    assert h in Held(s.callers);
    if dsn !in s.dbs {
      ValuesAfter(s.dbs, dsn, h);
    }
  }

  lemma StepAgrees(s: State, step: Step)
    requires Agree(s) && Enabled(s, step)
    ensures Agree(Apply(s, step))
  { }

  lemma {:induction false} RunKeeps(s: State, steps: seq<Step>, t: State)
    requires Conserved(s) && Agree(s) && Runs(s, steps, t)
    ensures Conserved(t) && Agree(t)
    decreases |steps|
  {
    if steps != [] {
      StepConserves(s, steps[0]);
      StepAgrees(s, steps[0]);
      RunKeeps(Apply(s, steps[0]), steps[1..], t);
    }
  }

  /** In every run of any callers of dbFor and Close: when no call is under way, each handle ever
      opened is either cached, under exactly one DSN, or closed, and never both. */
  lemma HandlesAreConserved(steps: seq<Step>, s: State)
    requires Runs(INIT, steps, s) && s.callers == map[]
    ensures s.issued == s.dbs.Values + s.closed && s.dbs.Values !! s.closed
    ensures forall a, b :: a in s.dbs && b in s.dbs && s.dbs[a] == s.dbs[b] ==> a == b
  {
    RunKeeps(INIT, steps, s);
    assert Held(s.callers) == {};
  }

  /** In a run without Close all successful calls for a DSN get one handle, and it is still open. */
  lemma SuccessfulCallsAgree(steps: seq<Step>, s: State, a: Return, b: Return)
    requires Runs(INIT, steps, s) && s.closes == 0
    requires a in s.results && b in s.results && a.dsn == b.dsn
    ensures a.handle == b.handle && a.handle in s.issued && a.handle !in s.closed
  {
    RunKeeps(INIT, steps, s);
    assert s.dbs[a.dsn] in s.dbs.Values;
  }

  predicate NoClose(steps: seq<Step>) { forall step :: step in steps ==> !step.CloseAll? }

  /** No step of call id but its lookup. */
  predicate OnlyLooksUp(steps: seq<Step>, id: nat) {
    forall step :: step in steps ==>
      step != Install(id) && step != OpenFails(id)
      && !(step.Open? && step.id == id) && !(step.PingFails? && step.id == id)
  }

  /** A cached DSN is answered from the cache: until the next Close, a call that enters for it opens no
      handle, and what it returns is the cached one. */
  lemma CachedDsnOpensNothing(s: State, steps: seq<Step>, t: State, id: nat)
    requires id in s.callers && s.callers[id].Entered? && s.callers[id].dsn in s.dbs
    requires Runs(s, steps, t) && NoClose(steps) && forall dsn :: Enter(id, dsn) !in steps
    ensures OnlyLooksUp(steps, id)
    ensures Enabled(t, Lookup(id)) <==> id in t.callers
    ensures id !in t.callers ==> Return(s.callers[id].dsn, s.dbs[s.callers[id].dsn]) in t.results
  {
    CachedRun(s, steps, t, id, s.callers[id].dsn, s.dbs[s.callers[id].dsn]);
  }

  /** Call id waits for its lookup of a cached DSN, or has returned the cached handle. */
  predicate Served(s: State, id: nat, dsn: string, h: Handle) {
    && dsn in s.dbs && s.dbs[dsn] == h
    && (if id in s.callers then s.callers[id] == Entered(dsn) else Return(dsn, h) in s.results)
  }

  lemma {:induction false} CachedRun(s: State, steps: seq<Step>, t: State, id: nat, dsn: string, h: Handle)
    requires Served(s, id, dsn, h)
    requires Runs(s, steps, t) && NoClose(steps) && forall d :: Enter(id, d) !in steps
    ensures OnlyLooksUp(steps, id) && Served(t, id, dsn, h)
    decreases |steps|
  {
    if steps != [] {
      assert steps[0] in steps;
      assert !steps[0].CloseAll? && steps[0] != Enter(id, if steps[0].Enter? then steps[0].dsn else "");
      CachedRun(Apply(s, steps[0]), steps[1..], t, id, dsn, h);
    }
  }

  /** A run that no further call enters. */
  predicate NoEnter(steps: seq<Step>) { forall step :: step in steps ==> !step.Enter? }

  /** A run that starts with Close, that no further call enters and that ends with no call under way. */
  predicate SettlesAfterClose(s: State, rest: seq<Step>, t: State) {
    Runs(Apply(s, CloseAll), rest, t) && NoEnter(rest) && t.callers == map[]
  }

  predicate AllClosed(s: State) { s.dbs == map[] && s.closed == s.issued }

  /** Close releases every handle for good, until a later call, exactly when no call is under way. */
  lemma CloseReleasesEverythingIff(steps: seq<Step>, s: State)
    requires Runs(INIT, steps, s)
    ensures (forall rest, t :: SettlesAfterClose(s, rest, t) ==> AllClosed(t)) <==> s.callers == map[]
  {
    RunKeeps(INIT, steps, s);
    StepConserves(s, CloseAll);
    if s.callers == map[] {
      assert Held(s.callers) == {};
      forall rest, t | SettlesAfterClose(s, rest, t) ensures AllClosed(t) {
        StaysClosed(Apply(s, CloseAll), rest, t);
      }
    } else {
      var id :| id in s.callers;
      var rest, t := LeavesHandleOpen(Apply(s, CloseAll), id);
      assert SettlesAfterClose(s, rest, t);
    }
  }

  lemma {:induction false} StaysClosed(s: State, steps: seq<Step>, t: State)
    requires AllClosed(s) && s.callers == map[] && Runs(s, steps, t) && NoEnter(steps)
    ensures AllClosed(t)
    decreases |steps|
  {
    if steps != [] {
      assert steps[0] in steps;
      assert steps[0].CloseAll?;
      assert s.dbs.Values == {};
      assert NoEnter(steps[1..]);
      StaysClosed(Apply(s, steps[0]), steps[1..], t);
    }
  }

  /** A call that was under way when the cache was cleared opens a handle, and caches it; the other
      calls then end too, and nobody closes that handle. */
  lemma LeavesHandleOpen(s: State, id: nat) returns (steps: seq<Step>, t: State)
    requires Conserved(s) && s.dbs == map[] && id in s.callers
    ensures Runs(s, steps, t) && NoEnter(steps) && t.callers == map[] && !AllClosed(t)
  {
    var caching, r := Caches(s, id);
    var ending: seq<Step>;
    ending, t := AllEnd(r);
    steps := caching + ending;
    RunsConcat(s, caching, r, ending, t);
    var dsn :| dsn in t.dbs;
  }

  lemma {:induction false} RunsConcat(s: State, steps: seq<Step>, t: State, more: seq<Step>, u: State)
    requires Runs(s, steps, t) && Runs(t, more, u)
    ensures Runs(s, steps + more, u)
    decreases |steps|
  {
    if steps == [] {
      assert steps + more == more;
    } else {
      assert (steps + more)[1..] == steps[1..] + more;
      RunsConcat(Apply(s, steps[0]), steps[1..], t, more, u);
    }
  }

  /** The steps a call still has to take. */
  function StepsLeft(caller: Caller): nat {
    match caller
    case Entered(_) => 3
    case Missed(_) => 2
    case Holding(_, _) => 1
  }

  /** With an empty cache, a call can go on to cache a handle. */
  lemma {:induction false} Caches(s: State, id: nat) returns (steps: seq<Step>, t: State)
    requires s.dbs == map[] && id in s.callers
    ensures Runs(s, steps, t) && NoEnter(steps) && t.dbs != map[]
    decreases StepsLeft(s.callers[id])
  {
    var h := Above(s.issued);
    var step := match s.callers[id]
      case Entered(_) => Lookup(id)
      case Missed(_) => Open(id, h)
      case Holding(_, _) => Install(id);
    var r := Apply(s, step);
    if s.callers[id].Holding? {
      steps, t := [step], r;
      assert s.callers[id].dsn in r.dbs;
      assert Runs(r, [], r);
    } else {
      steps, t := Caches(r, id);
      steps := [step] + steps;
    }
  }

  /** From any state all calls can end, and a cache that is not empty stays so. */
  lemma {:induction false} AllEnd(s: State) returns (steps: seq<Step>, t: State)
    ensures Runs(s, steps, t) && NoEnter(steps) && t.callers == map[]
    ensures s.dbs != map[] ==> t.dbs != map[]
    decreases |s.callers|
  {
    if s.callers == map[] {
      steps, t := [], s;
    } else {
      var id :| id in s.callers;
      var first, r := Ends(s, id);
      var rest: seq<Step>;
      rest, t := AllEnd(r);
      steps := first + rest;
      RunsConcat(s, first, r, rest, t);
    }
  }

  lemma {:induction false} Ends(s: State, id: nat) returns (steps: seq<Step>, t: State)
    requires id in s.callers
    ensures Runs(s, steps, t) && NoEnter(steps) && |t.callers| < |s.callers|
    ensures s.dbs != map[] ==> t.dbs != map[]
    decreases StepsLeft(s.callers[id])
  {
    var step := match s.callers[id]
      case Entered(_) => Lookup(id)
      case Missed(_) => OpenFails(id)
      case Holding(_, _) => Install(id);
    var r := Apply(s, step);
    assert (s.callers - {id}).Keys == s.callers.Keys - {id};
    if id in r.callers {
      assert r.callers.Keys == s.callers.Keys;
      steps, t := Ends(r, id);
      steps := [step] + steps;
    } else {
      steps, t := [step], r;
      assert Runs(r, [], r);
    }
  }

  /** A runner that has been closed opens a handle again for the next call, and keeps it. */
  lemma UseAfterCloseReopens(s: State, id: nat, dsn: string, h: Handle) returns (steps: seq<Step>, t: State)
    requires Conserved(s) && s.callers == map[] && h !in s.issued
    ensures Runs(s, steps, t) && steps != [] && steps[0] == CloseAll
    ensures t.callers == map[] && t.dbs == map[dsn := h] && h !in t.closed
  {
    var s1 := Apply(s, CloseAll);
    var s2 := Apply(s1, Enter(id, dsn));
    var s3 := Apply(s2, Lookup(id));
    var s4 := Apply(s3, Open(id, h));
    t := Apply(s4, Install(id));
    assert t.callers == map[];
    steps := [CloseAll, Enter(id, dsn), Lookup(id), Open(id, h), Install(id)];
    assert Runs(t, [], t);
    assert steps[1..][1..][1..][1..] == [Install(id)] && steps[1..][1..][1..][1..][1..] == [];
    assert Runs(s4, steps[1..][1..][1..][1..], t);
    assert Runs(s3, steps[1..][1..][1..], t);
    assert Runs(s2, steps[1..][1..], t);
    assert Runs(s1, steps[1..], t);
  }

  // ---------------------------------------------------------------- the runner

  /** SQLRunner: each method is one section under the mutex. */
  class SqlRunner {
    var dbs: map<string, Handle>
    var closed: set<Handle>

    constructor ()
      ensures dbs == map[] && closed == {}
    {
      dbs, closed := map[], {};
    }

    /** The first section of dbFor. */
    method Lookup(dsn: string) returns (r: Option<Handle>)
      ensures r == if dsn in dbs then Some(dbs[dsn]) else None
    {
      if dsn in dbs {
        return Some(dbs[dsn]);
      }
      return None;
    }

    /** The second section of dbFor, with the handle opened in between. */
    method Install(dsn: string, db: Handle) returns (r: Handle)
      modifies this
      ensures dsn in dbs && r == dbs[dsn]
      ensures dbs == if dsn in old(dbs) then old(dbs) else old(dbs)[dsn := db]
      ensures closed == if dsn in old(dbs) then old(closed) + {db} else old(closed)
    {
      if dsn in dbs {
        closed := closed + {db};
        return dbs[dsn];
      }
      dbs := dbs[dsn := db];
      return db;
    }

    /** Close: every cached handle is closed and forgotten, in whatever order the map is walked. */
    method Close()
      modifies this
      ensures dbs == map[] && closed == old(closed) + old(dbs).Values
    {
      while dbs != map[]
        invariant closed + dbs.Values == old(closed) + old(dbs).Values
        decreases |dbs|
      {
        var dsn :| dsn in dbs;
        var db := dbs[dsn];
        closed := closed + {db};
        assert (dbs - {dsn}).Keys == dbs.Keys - {dsn};
        ValuesWithout(dbs, dsn);
        dbs := dbs - {dsn};
      }
    }
  }

  lemma ValuesWithout(m: map<string, Handle>, dsn: string)
    requires dsn in m
    ensures (m - {dsn}).Values + {m[dsn]} == m.Values
  {
    forall v | v in m.Values && v != m[dsn] ensures v in (m - {dsn}).Values {
      var d :| d in m && m[d] == v;
      assert d in m - {dsn};
    }
  }
}
