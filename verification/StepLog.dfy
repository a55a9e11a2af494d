/** The dispatch log of a step: who is processed, in which order, and what a failure leaves. */
module StepLog {
  import opened Common
  import opened StringOrder
  import opened Values
  import opened Engine
  import opened Scheduling

  /** The exception, if any, was taken by one of the handlers. */
  predicate Handled(e: Entry) {
    e.out.Ok? || e.out.exn.Caught()
  }

  /** What the end of a turn keeps: all but the variables and the error records. */
  lemma FinishKeeps(st: St, name: string, o: Outcome<Params>)
    ensures var r := WriteBack(Handle(st, name, o), o).0;
            r == st.(vars := r.vars, errors := r.errors, errBlocks := r.errBlocks)
  {
  }

  lemma FinishChildKeeps(cfg: Cfg, st: St, i: nat, o: Outcome<Params>)
    requires Shape(cfg, st) && i < |cfg.children|
    ensures var r := WriteBack(Drain(cfg, Handle(st, cfg.children[i].name, o), i), o).0;
            r == st.(vars := r.vars, errors := r.errors, errBlocks := r.errBlocks,
                     children := st.children[i := st.children[i].(errBlocks := {})])
  {
  }

  /** An object that is dispatched leaves every other object alone. */
  lemma RunObjLocal(env: Env, cfg: Cfg, st: St, ref: Ref, tick: Tick, up: Params)
    requires Shape(cfg, st) && ValidRef(cfg, ref)
    ensures var (r, o, e) := RunObj(env, cfg, st, ref, tick, up);
            && e.ref == ref
            && (forall i | 0 <= i < |cfg.children| && ref != Child(i) :: r.children[i] == st.children[i])
            && (forall j | 0 <= j < |cfg.subs| && ref != Sub(j) :: r.subs[j] == st.subs[j])
            && r.power == st.power && r.blocked == st.blocked && r.plan == st.plan
  {
    match ref
    case Sub(j) =>
      var (s, b, o) := GuardSub(env, cfg.subs[j], st.subs[j], Vals(st.vars), tick, up);
      FinishKeeps(st.(subs := st.subs[j := s]), cfg.subs[j].name, o);
    case Child(i) =>
      var (c, b, o) := GuardChild(env, cfg.children[i], st.children[i], Vals(st.vars), tick);
      FinishChildKeeps(cfg, st.(children := st.children[i := c]), i, o);
  }

  /** The end of a child's own turn. */
  lemma RunChildOutcome(env: Env, cfg: Cfg, st: St, i: nat, tick: Tick, up: Params)
    requires Shape(cfg, st) && i < |cfg.children|
    ensures var (r, o, e) := RunObj(env, cfg, st, Child(i), tick, up);
            var g := GuardChild(env, cfg.children[i], st.children[i], Vals(st.vars), tick);
            e == Entry(Child(i), g.1, g.2) && (Handled(e) ==> r.children[i] == g.0.(errBlocks := {}))
  {
    var (c, b, o) := GuardChild(env, cfg.children[i], st.children[i], Vals(st.vars), tick);
    FinishChildKeeps(cfg, st.(children := st.children[i := c]), i, o);
  }

  /** The log follows the schedule: each object once, in order, up to an exception no handler takes. */
  lemma {:induction false} LogFollowsRefs(env: Env, cfg: Cfg, st: St, refs: seq<Ref>, tick: Tick, up: Params)
    requires Shape(cfg, st) && forall r <- refs :: ValidRef(cfg, r)
    ensures var (r, o, log) := RunObjs(env, cfg, st, refs, tick, up);
            && |log| <= |refs| && (forall n | 0 <= n < |log| :: log[n].ref == refs[n])
            && (o.Ok? ==> |log| == |refs| && forall e <- log :: Handled(e))
            && (forall i | 0 <= i < |cfg.children| && Child(i) !in refs :: r.children[i] == st.children[i])
            && (forall j | 0 <= j < |cfg.subs| && Sub(j) !in refs :: r.subs[j] == st.subs[j])
            && r.power == st.power && r.blocked == st.blocked && r.plan == st.plan
    decreases |refs|
  {
    if refs != [] {
      RunObjLocal(env, cfg, st, refs[0], tick, up);
      var (st1, o, _) := RunObj(env, cfg, st, refs[0], tick, up);
      if o.Ok? { LogFollowsRefs(env, cfg, st1, refs[1..], tick, up); }
    }
  }

  /** A step that is not cut short processes exactly the eligible objects, each once, by priority
      and name. */
  lemma StepProcessesSchedule(env: Env, cfg: Cfg, st: St, tick: Tick, up: Params)
    requires Shape(cfg, st) && CallLog(env, cfg, st, tick, up).1.Ok?
    ensures var log := CallLog(env, cfg, st, tick, up).2;
            var processed := seq(|log|, n requires 0 <= n < |log| => log[n].ref);
            && (forall r :: r in processed <==> Eligible(cfg, st, tick.time, r))
            && InCallOrder(cfg, processed)
            && NoDuplicates(processed)
  {
    var st1 := Begin(cfg, st, up).0;
    var refs := Schedule(cfg, st1, tick.time);
    ScheduleIsStableSort(cfg, st1, tick.time);
    LogFollowsRefs(env, cfg, st1, refs, tick, up);
    var log := CallLog(env, cfg, st, tick, up).2;
    assert seq(|log|, n requires 0 <= n < |log| => log[n].ref) == refs;
  }

  /** What an entry says about a child: its branch, its outcome and its state at the end of the step
      all come from one evaluation of the guarded region on the state it had before the step. */
  lemma {:induction false} ChildOutcome(env: Env, cfg: Cfg, st: St, refs: seq<Ref>, tick: Tick, up: Params, n: nat,
          i: nat)
    returns (vals: Params)
    requires Shape(cfg, st) && (forall r <- refs :: ValidRef(cfg, r)) && NoDuplicates(refs)
    requires var log := RunObjs(env, cfg, st, refs, tick, up).2;
             n < |log| && log[n].ref == Child(i) && Handled(log[n])
    ensures i < |cfg.children|
    ensures var (r, _, log) := RunObjs(env, cfg, st, refs, tick, up);
            var g := GuardChild(env, cfg.children[i], st.children[i], vals, tick);
            log[n].branch == g.1 && log[n].out == g.2 && r.children[i] == g.0.(errBlocks := {})
    decreases |refs|
  {
    var (st1, o, e) := RunObj(env, cfg, st, refs[0], tick, up);
    RunObjLocal(env, cfg, st, refs[0], tick, up);
    LogFollowsRefs(env, cfg, st, refs, tick, up);
    if n == 0 {
      vals := Vals(st.vars);
      RunChildOutcome(env, cfg, st, i, tick, up);
      if o.Ok? {
        assert Child(i) !in refs[1..];
        LogFollowsRefs(env, cfg, st1, refs[1..], tick, up);
      }
    } else {
      assert refs[n] != refs[0];
      vals := ChildOutcome(env, cfg, st1, refs[1..], tick, up, n - 1, i);
    }
  }

  /** The guarded region of a child that is and was powered is a plain call. */
  lemma GuardChildCalled(env: Env, cc: Cfg, c: St, vals: Params, tick: Tick)
    requires Shape(cc, c) && Powered(cc.cond, vals) == Ok(true) && c.power
    ensures var (c1, o) := Call(env, cc, PreCall(cc, c, tick.now), tick, vals);
            GuardChild(env, cc, c, vals, tick) == (SetPower(c1, o, true), Called, o)
  {
  }

  /** An object whose guarded region throws writes nothing into the block, keeps its previous-power
      flag, and leaves its name and one message behind. */
  lemma FailureIsContained(env: Env, cfg: Cfg, st: St, ref: Ref, tick: Tick, up: Params)
    requires Shape(cfg, st) && ValidRef(cfg, ref)
    requires var e := RunObj(env, cfg, st, ref, tick, up).2; e.out.Throw? && !e.out.exn.Foreign? && !e.out.exn.NullRef?
    ensures var (r, o, e) := RunObj(env, cfg, st, ref, tick, up);
            var name := match ref case Child(i) => cfg.children[i].name case Sub(j) => cfg.subs[j].name;
            && o.Ok? && r.vars == st.vars
            && (ref.Child? ==> r.children[ref.i].power == st.children[ref.i].power)
            && name in r.errBlocks && r.errors == st.errors + [ErrorMsg(name, e.out.exn)]
  {
    var none: Params := map[];
    assert SortedKeys(none.Keys) == [];
    if ref.Child? {
      FailedSwitchKeepsFlag(env, cfg.children[ref.i], st.children[ref.i], Vals(st.vars), tick);
    }
  }

  lemma FailedSwitchKeepsFlag(env: Env, cc: Cfg, c: St, vals: Params, tick: Tick)
    requires Shape(cc, c) && GuardChild(env, cc, c, vals, tick).2.Throw?
    ensures GuardChild(env, cc, c, vals, tick).0.power == c.power
  {
    CallKeepsFlag(env, cc, PreCall(cc, c, tick.now), tick, vals);
    FailedPowerOffKeepsFlag(cc, c, 0);
  }

  lemma CallKeepsFlag(env: Env, cfg: Cfg, st: St, tick: Tick, up: Params)
    requires Shape(cfg, st)
    ensures Call(env, cfg, st, tick, up).0.power == st.power
    ensures Call(env, cfg, st, tick, up).0.plan == st.plan + cfg.period
  {
    var (st1, o) := Begin(cfg, st, up);
    if o.Ok? {
      ScheduleValid(cfg, st1, tick.time);
      LogFollowsRefs(env, cfg, st1, Schedule(cfg, st1, tick.time), tick, up);
    }
  }

  lemma {:induction false} FailedPowerOffKeepsFlag(cfg: Cfg, st: St, i: nat)
    requires Shape(cfg, st) && i <= |cfg.children|
    ensures var (r, o) := PowerOffFrom(cfg, st, i); r.power == (if o.Ok? then false else st.power)
    decreases |cfg.children| - i
  {
    if i < |cfg.children| {
      var (st1, o) := PowerOffChild(cfg, st, i);
      if o.Ok? { FailedPowerOffKeepsFlag(cfg, st1, i + 1); }
    }
  }
}
