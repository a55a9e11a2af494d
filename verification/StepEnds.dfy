/** How a step ends: exactly when it is cut short, by what, and what children with wires or edge values
    of the wrong type do in it. */
module StepEnds {
  import opened Common
  import opened StringOrder
  import opened Values
  import opened Engine
  import opened Scheduling
  import opened StepLog
  import opened Frame
  import opened Soundness
  import opened WiringLimits

  // ----- one turn -----

  /** How the turn of an object ends whose guarded region ended with out. */
  function TurnEnd(vars: Vars, out: Outcome<Params>): Outcome<()> {
    match out
    case Ok(m) => if Fits(vars, m) then Ok(()) else Throw(BadCast)
    case Throw(e) => if e.Foreign? || e.NullRef? then Throw(e) else Ok(())
  }

  lemma WriteBackEnd(st: St, vars: Vars, out: Outcome<Params>)
    requires st.vars == vars && (out.Throw? ==> out.exn.Caught())
    ensures WriteBack(st, out).1 == TurnEnd(vars, out)
  {
    var m := if out.Ok? then out.value else map[];
    WriteOkIff(vars, m);
  }

  /** The turn of a child or a subprogram ends the step exactly when what it returned does not fit the
      variables of the block, or when what it threw is caught by none of the handlers. */
  lemma TurnEndsIff(env: Env, cfg: Cfg, st: St, ref: Ref, tick: Tick, up: Params)
    requires Shape(cfg, st) && ValidRef(cfg, ref)
    ensures RunObj(env, cfg, st, ref, tick, up).1 == TurnEnd(st.vars, RunObj(env, cfg, st, ref, tick, up).2.out)
  {
    hide WriteBack, TurnEnd;
    match ref
    case Sub(j) =>
      var (s, b, o) := GuardSub(env, cfg.subs[j], st.subs[j], Vals(st.vars), tick, up);
      if o.Throw? && !o.exn.Caught() {
        assert TurnEnd(st.vars, o) == Throw(o.exn) by { Uncaught(st.vars, o); }
      } else {
        WriteBackEnd(Handle(st.(subs := st.subs[j := s]), cfg.subs[j].name, o), st.vars, o);
      }
    case Child(i) =>
      var (c, b, o) := GuardChild(env, cfg.children[i], st.children[i], Vals(st.vars), tick);
      if o.Throw? && !o.exn.Caught() {
        assert TurnEnd(st.vars, o) == Throw(o.exn) by { Uncaught(st.vars, o); }
      } else {
        WriteBackEnd(Drain(cfg, Handle(st.(children := st.children[i := c]), cfg.children[i].name, o), i), st.vars, o);
      }
  }

  lemma Uncaught(vars: Vars, o: Outcome<Params>)
    requires o.Throw? && !o.exn.Caught()
    ensures TurnEnd(vars, o) == Throw(o.exn)
  {
  }

  /** Whether values fit depends on names, types and locks alone. */
  lemma TurnEndFramed(a: Vars, b: Vars, free: set<string>, out: Outcome<Params>)
    requires VarsFrame(a, b, free)
    ensures TurnEnd(b, out) == TurnEnd(a, out)
  {
    if out.Ok? {
      var m := out.value;
      assert forall k {:trigger m[k]} | k in m :: k in a && !a[k].locked <==> k in b && !b[k].locked;
      assert Fits(a, m) <==> Fits(b, m);
    }
  }

  // ----- the dispatch loop -----

  /** The loop goes to its end exactly when no turn stops it, judged by the variables it started with; the
      turn that stops it is the last of the log. */
  lemma {:induction false} RunObjsEnd(env: Env, cfg: Cfg, st: St, refs: seq<Ref>, tick: Tick, up: Params)
    requires Shape(cfg, st) && forall r <- refs :: ValidRef(cfg, r)
    ensures var (_, o, log) := RunObjs(env, cfg, st, refs, tick, up);
            && (o.Ok? <==> forall e <- log :: TurnEnd(st.vars, e.out).Ok?)
            && (o.Throw? ==> log != [] && o == TurnEnd(st.vars, log[|log| - 1].out))
            && forall n | 0 <= n < |log| - 1 :: TurnEnd(st.vars, log[n].out).Ok?
    decreases |refs|
  {
    hide RunObj, TurnEnd;
    if refs != [] {
      var (st1, o, e) := RunObj(env, cfg, st, refs[0], tick, up);
      TurnEndsIff(env, cfg, st, refs[0], tick, up);
      RunObjFramed(env, cfg, st, refs[0], tick, up);
      if o.Ok? {
        RunObjsEnd(env, cfg, st1, refs[1..], tick, up);
        var es := RunObjs(env, cfg, st1, refs[1..], tick, up).2;
        forall out ensures TurnEnd(st1.vars, out) == TurnEnd(st.vars, out) {
          TurnEndFramed(st.vars, st1.vars, cfg.use.Keys, out);
        }
        assert forall x :: x in [e] + es <==> x == e || x in es;
      }
    }
  }

  /** A step is cut short exactly when the USE copy fails, or some object that came up threw an exception
      no handler takes or returned values that do not fit the variables the block had at its start. */
  lemma StepEndsIff(env: Env, cfg: Cfg, st: St, tick: Tick, up: Params)
    requires Shape(cfg, st)
    ensures var (_, o, log) := CallLog(env, cfg, st, tick, up);
            && (o.Ok? <==> UseFits(st.vars, cfg.use, up) && forall e <- log :: TurnEnd(st.vars, e.out).Ok?)
            && (o.Throw? && UseFits(st.vars, cfg.use, up) ==>
                  log != [] && o == TurnEnd(st.vars, log[|log| - 1].out))
            && forall n | 0 <= n < |log| - 1 :: TurnEnd(st.vars, log[n].out).Ok?
  {
    hide TurnEnd, RunObjs, Schedule, UseFits, CopyUseFrom;
    var (st1, o) := Begin(cfg, st, up);
    CopyUseIff(st.vars, cfg.use, up);
    CopyUseFramed(st.vars, SortedKeys(cfg.use.Keys), cfg.use, up);
    if o.Ok? {
      ScheduleValid(cfg, st1, tick.time);
      RunObjsEnd(env, cfg, st1, Schedule(cfg, st1, tick.time), tick, up);
      forall out ensures TurnEnd(st1.vars, out) == TurnEnd(st.vars, out) {
        TurnEndFramed(st.vars, st1.vars, cfg.use.Keys, out);
      }
    }
  }

  /** So a step that nothing of the kind happens in processes exactly the eligible objects, each once, by
      priority and name; and a step of a well-wired block whose functions keep to the types is one. */
  lemma UncutStepProcesses(env: Env, cfg: Cfg, st: St, tick: Tick, up: Params)
    requires Shape(cfg, st) && UseFits(st.vars, cfg.use, up)
    requires forall e <- CallLog(env, cfg, st, tick, up).2 :: TurnEnd(st.vars, e.out).Ok?
    ensures var log := CallLog(env, cfg, st, tick, up).2;
            var processed := seq(|log|, n requires 0 <= n < |log| => log[n].ref);
            && (forall r :: r in processed <==> Eligible(cfg, st, tick.time, r))
            && InCallOrder(cfg, processed) && NoDuplicates(processed)
  {
    hide CallLog;
    StepEndsIff(env, cfg, st, tick, up);
    StepProcessesSchedule(env, cfg, st, tick, up);
  }

  lemma SoundStepProcesses(env: Env, cfg: Cfg, st: St, tick: Tick, up: Params)
    requires Shape(cfg, st) && WellWired(cfg, st) && RespectsTypes(env, cfg, st, TypesOf(up))
    requires WiresTyped(cfg.use, VarTypes(st.vars), TypesOf(up)) && cfg.ret.Values <= st.vars.Keys
    ensures var log := CallLog(env, cfg, st, tick, up).2;
            var processed := seq(|log|, n requires 0 <= n < |log| => log[n].ref);
            && (forall r :: r in processed <==> Eligible(cfg, st, tick.time, r))
            && InCallOrder(cfg, processed) && NoDuplicates(processed)
  {
    hide CallLog;
    CallSound(env, cfg, st, tick, up);
    StepProcessesSchedule(env, cfg, st, tick, up);
  }

  // ----- the USE copy -----

  /** Every destination is there, its parent variable is there, and their types agree. */
  predicate UseFits(vars: Vars, use: map<string, string>, up: Params) {
    forall n {:trigger use[n]} | n in use :: n in vars && use[n] in up && TypeOf(vars[n].val) == TypeOf(up[use[n]])
  }

  predicate UsePresent(vars: Vars, use: map<string, string>, up: Params) {
    forall n {:trigger use[n]} | n in use :: n in vars && use[n] in up
  }

  lemma {:induction false} CopyUseFromIff(vars: Vars, keys: seq<string>, use: map<string, string>, up: Params)
    requires forall k <- keys :: k in use
    ensures CopyUseFrom(vars, keys, use, up).1.Ok? <==>
            forall k <- keys :: k in vars && use[k] in up && TypeOf(vars[k].val) == TypeOf(up[use[k]])
    ensures UsePresent(vars, use, up) && CopyUseFrom(vars, keys, use, up).1.Throw? ==>
              CopyUseFrom(vars, keys, use, up).1.exn == BadCast
    decreases keys
  {
    if keys != [] {
      var k, rest := keys[0], keys[1..];
      assert keys == [k] + rest;
      var _ := use[k];
      if k in vars && use[k] in up && CopyData(vars[k].val, up[use[k]]).Ok? {
        var vars1 := vars[k := vars[k].(val := CopyData(vars[k].val, up[use[k]]).value.0)];
        CopyUseFromIff(vars1, rest, use, up);
        assert UsePresent(vars, use, up) <==> UsePresent(vars1, use, up);
      }
    }
  }

  /** The USE copy succeeds exactly on wires that fit; with both ends of all wires present it fails with a
      bad_cast. */
  lemma CopyUseIff(vars: Vars, use: map<string, string>, up: Params)
    ensures CopyUse(vars, use, up).1.Ok? <==> UseFits(vars, use, up)
    ensures UsePresent(vars, use, up) && !UseFits(vars, use, up) ==> CopyUse(vars, use, up).1 == Throw(BadCast)
  {
    CopyUseFromIff(vars, SortedKeys(use.Keys), use, up);
    forall n | n in use ensures n in SortedKeys(use.Keys) {}
    assert UseFits(vars, use, up) <==> forall k <- SortedKeys(use.Keys) ::
      k in vars && use[k] in up && TypeOf(vars[k].val) == TypeOf(up[use[k]]);
  }

  // ----- children whose wires or edge values do not fit -----

  /** All USE wires of the child have both ends, and some have different types. */
  predicate BadUse(cc: Cfg, c: St, vars: Vars) {
    UsePresent(c.vars, cc.use, Vals(vars)) && !UseFits(c.vars, cc.use, Vals(vars))
  }

  /** The call of such a child fails before anything else happens in it. */
  lemma BadUseFails(env: Env, cc: Cfg, c: St, vars: Vars, tick: Tick)
    requires Shape(cc, c) && BadUse(cc, c, vars) && GuardChild(env, cc, c, Vals(vars), tick).1 == Called
    ensures GuardChild(env, cc, c, Vals(vars), tick).2 == Throw(BadCast)
  {
    hide CopyUse, UseFits, UsePresent;
    CopyUseIff(c.vars, cc.use, Vals(vars));
    CalledIsCall(env, cc, c, Vals(vars), tick);
  }

  /** The rising edge of a child whose power-on values do not fit fails. */
  lemma BadEdgeFails(env: Env, cc: Cfg, c: St, vals: Params, tick: Tick)
    requires Shape(cc, c) && !Fits(c.vars, cc.on) && GuardChild(env, cc, c, vals, tick).1 == PoweredOn
    ensures GuardChild(env, cc, c, vals, tick).2 == Throw(BadCast)
  {
    hide Write, Fits;
    WriteOkIff(c.vars, cc.on);
  }

  /** power_off_children fails with nothing but a bad_cast, and does if the own values do not fit. */
  lemma {:induction false} BadOffFails(cfg: Cfg, st: St, i: nat)
    requires Shape(cfg, st) && i <= |cfg.children|
    ensures var o := PowerOffFrom(cfg, st, i).1;
            (o.Throw? ==> o.exn == BadCast) && (!Fits(st.vars, cfg.off) ==> o.Throw?)
    decreases cfg, |cfg.children| - i
  {
    hide Write, Fits;
    if i == |cfg.children| {
      WriteOkIff(st.vars, cfg.off);
    } else {
      var (c, o) := PowerOff(cfg.children[i], st.children[i]);
      BadOffFails(cfg.children[i], st.children[i], 0);
      var (st1, o1) := PowerOffChild(cfg, st, i);
      if o.Ok? {
        WriteOkIff(st.vars, o.value);
        WriteBackFramed(cfg, st.(children := st.children[i := c]), o);
        if o1.Ok? {
          FitsFramed(st.vars, st1.vars, cfg.use.Keys, cfg.off);
          BadOffFails(cfg, st1, i + 1);
        }
      }
    }
  }

  lemma FitsFramed(a: Vars, b: Vars, free: set<string>, m: Params)
    requires VarsFrame(a, b, free)
    ensures Fits(b, m) <==> Fits(a, m)
  {
    TurnEndFramed(a, b, free, Ok(m));
  }

  lemma BadUseFramed(cc: Cfg, c: St, c1: St, a: Vars, b: Vars)
    requires VarTypes(c.vars) == VarTypes(c1.vars) && VarTypes(a) == VarTypes(b)
    ensures BadUse(cc, c1, b) <==> BadUse(cc, c, a)
  {
    assert forall n :: n in c.vars <==> n in VarTypes(c.vars);
    assert forall n :: n in c1.vars <==> n in VarTypes(c1.vars);
    assert forall n :: n in a <==> n in VarTypes(a);
    assert forall n :: n in b <==> n in VarTypes(b);
  }

  /** An entry of child i as its wires and edge values make it. */
  ghost predicate Expected(cc: Cfg, c: St, vars: Vars, i: nat, e: Entry) {
    e.ref == Child(i) ==>
      && (e.branch == Called && BadUse(cc, c, vars) ==> e.out == Throw(BadCast))
      && (e.branch == PoweredOn && !Fits(c.vars, cc.on) ==> e.out == Throw(BadCast))
      && (e.branch == PoweredOff && !Fits(c.vars, cc.off) ==> e.out == Throw(BadCast))
      && (e.branch == Called && e.out.Ok? ==>
            forall d | d in cc.ret && cc.ret[d] in c.vars ::
              d in e.out.value && TypeOf(e.out.value[d]) == TypeOf(c.vars[cc.ret[d]].val))
  }

  lemma ExpectedTurn(env: Env, cfg: Cfg, st: St, i: nat, tick: Tick, up: Params)
    requires Shape(cfg, st) && i < |cfg.children|
    ensures Expected(cfg.children[i], st.children[i], st.vars, i, RunObj(env, cfg, st, Child(i), tick, up).2)
  {
    hide GuardChild, BadUse, Fits, RunObj;
    var cc, c, vals := cfg.children[i], st.children[i], Vals(st.vars);
    RunChildOutcome(env, cfg, st, i, tick, up);
    var g := GuardChild(env, cc, c, vals, tick);
    if g.1 == Called && BadUse(cc, c, st.vars) { BadUseFails(env, cc, c, st.vars, tick); }
    if g.1 == PoweredOn && !Fits(c.vars, cc.on) { BadEdgeFails(env, cc, c, vals, tick); }
    if g.1 == PoweredOff { BadOffFails(cc, c, 0); OffOutcome(env, cc, c, vals, tick); }
    if g.1 == Called && g.2.Ok? {
      forall d | d in cc.ret && cc.ret[d] in c.vars
        ensures d in g.2.value && TypeOf(g.2.value[d]) == TypeOf(c.vars[cc.ret[d]].val)
      {
        CalledReturnKeepsType(env, cc, c, vals, tick, d);
      }
    }
  }

  lemma OffOutcome(env: Env, cc: Cfg, c: St, vals: Params, tick: Tick)
    requires Shape(cc, c) && GuardChild(env, cc, c, vals, tick).1 == PoweredOff
    ensures GuardChild(env, cc, c, vals, tick).2 == PowerOffFrom(cc, c, 0).1
  {
  }

  lemma ExpectedFramed(cc: Cfg, c: St, c1: St, a: Vars, b: Vars, i: nat, e: Entry)
    requires VarsFrame(c.vars, c1.vars, cc.use.Keys) && VarTypes(a) == VarTypes(b) && Expected(cc, c1, b, i, e)
    ensures Expected(cc, c, a, i, e)
  {
    hide BadUse, Fits;
    assert VarTypes(c.vars) == VarTypes(c1.vars);
    BadUseFramed(cc, c, c1, a, b);
    FitsFramed(c.vars, c1.vars, cc.use.Keys, cc.on);
    FitsFramed(c.vars, c1.vars, cc.use.Keys, cc.off);
  }

  lemma {:induction false} ExpectedLog(env: Env, cfg: Cfg, st: St, refs: seq<Ref>, tick: Tick, up: Params, i: nat)
    requires Shape(cfg, st) && (forall r <- refs :: ValidRef(cfg, r)) && i < |cfg.children|
    ensures forall e <- RunObjs(env, cfg, st, refs, tick, up).2 ::
              Expected(cfg.children[i], st.children[i], st.vars, i, e)
    decreases |refs|
  {
    hide RunObj, Expected;
    if refs != [] {
      var (st1, o, e) := RunObj(env, cfg, st, refs[0], tick, up);
      RunObjLocal(env, cfg, st, refs[0], tick, up);
      if refs[0] == Child(i) { ExpectedTurn(env, cfg, st, i, tick, up); } else { NotExpected(cfg, st, i, e); }
      if o.Ok? {
        RunObjFramed(env, cfg, st, refs[0], tick, up);
        var es := RunObjs(env, cfg, st1, refs[1..], tick, up).2;
        ExpectedLog(env, cfg, st1, refs[1..], tick, up, i);
        forall x | x in es ensures Expected(cfg.children[i], st.children[i], st.vars, i, x) {
          assert VarTypes(st.vars) == VarTypes(st1.vars);
          ExpectedFramed(cfg.children[i], st.children[i], st1.children[i], st.vars, st1.vars, i, x);
        }
        assert forall x :: x in [e] + es <==> x == e || x in es;
      }
    }
  }

  lemma NotExpected(cfg: Cfg, st: St, i: nat, e: Entry)
    requires Shape(cfg, st) && i < |cfg.children| && e.ref != Child(i)
    ensures Expected(cfg.children[i], st.children[i], st.vars, i, e)
  {
  }

  /** In every step of a block: each call of a child with a USE wire of the wrong type fails with a bad_cast,
      so does each rising or falling edge of a child whose power-on or power-off values do not fit, and a
      child that was called and returned has returned all its return wires with the types of their sources. */
  lemma ChildEntries(env: Env, cfg: Cfg, st: St, tick: Tick, up: Params, i: nat)
    requires Shape(cfg, st) && i < |cfg.children|
    ensures forall e <- CallLog(env, cfg, st, tick, up).2 :: Expected(cfg.children[i], st.children[i], st.vars, i, e)
  {
    hide RunObjs, Schedule, Expected, CopyUseFrom;
    var (st1, o) := Begin(cfg, st, up);
    if o.Ok? {
      ScheduleValid(cfg, st1, tick.time);
      ExpectedLog(env, cfg, st1, Schedule(cfg, st1, tick.time), tick, up, i);
      CopyUseFramed(st.vars, SortedKeys(cfg.use.Keys), cfg.use, up);
      forall e | e in CallLog(env, cfg, st, tick, up).2
        ensures Expected(cfg.children[i], st.children[i], st.vars, i, e)
      {
        assert VarTypes(st.vars) == VarTypes(st1.vars);
        ExpectedFramed(cfg.children[i], st.children[i], st1.children[i], st.vars, st1.vars, i, e);
      }
    }
  }

  /** A step in which a child with a mistyped return wire is called and returns is stopped by a bad_cast. */
  lemma MistypedStops(env: Env, cfg: Cfg, st: St, tick: Tick, up: Params, i: nat, d: string, n: nat)
    requires Shape(cfg, st) && i < |cfg.children| && Mistyped(cfg.children[i], st.children[i], st.vars, d)
    requires var log := CallLog(env, cfg, st, tick, up).2;
             n < |log| && log[n].ref == Child(i) && log[n].branch == Called && log[n].out.Ok?
    ensures CallLog(env, cfg, st, tick, up).1 == Throw(BadCast) && n == |CallLog(env, cfg, st, tick, up).2| - 1
  {
    hide CallLog;
    var log := CallLog(env, cfg, st, tick, up).2;
    ChildEntries(env, cfg, st, tick, up, i);
    assert Expected(cfg.children[i], st.children[i], st.vars, i, log[n]);
    var m := log[n].out.value;
    assert d in m && !Fits(st.vars, m) && TurnEnd(st.vars, log[n].out) == Throw(BadCast);
    StepEndsIff(env, cfg, st, tick, up);
    LogMeansBegun(env, cfg, st, tick, up);
  }

  lemma LogMeansBegun(env: Env, cfg: Cfg, st: St, tick: Tick, up: Params)
    requires Shape(cfg, st) && CallLog(env, cfg, st, tick, up).2 != []
    ensures UseFits(st.vars, cfg.use, up)
  {
    CopyUseIff(st.vars, cfg.use, up);
  }
}
