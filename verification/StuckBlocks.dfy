/** Blocks whose power-on values do not fit their variables: they never switch on. */
module StuckBlocks {
  import opened Common
  import opened StringOrder
  import opened Values
  import opened Engine
  import opened StepLog
  import opened Frame
  import opened Power
  import opened WiringLimits
  import opened StepEnds

  /** A block whose flag is up has power-on values that fit. */
  predicate MayBeOn(cfg: Cfg, st: St) {
    st.power ==> Fits(st.vars, cfg.on)
  }

  /** At every depth below. */
  ghost predicate StuckOff(cfg: Cfg, st: St)
    requires Shape(cfg, st)
    decreases cfg
  {
    forall i | 0 <= i < |cfg.children| ::
      MayBeOn(cfg.children[i], st.children[i]) && StuckOff(cfg.children[i], st.children[i])
  }

  lemma {:induction false} DarkIsStuck(cfg: Cfg, st: St)
    requires Shape(cfg, st) && DarkBelow(cfg, st)
    ensures StuckOff(cfg, st)
    decreases cfg
  {
    forall i | 0 <= i < |cfg.children|
      ensures MayBeOn(cfg.children[i], st.children[i]) && StuckOff(cfg.children[i], st.children[i])
    {
      DarkIsStuck(cfg.children[i], st.children[i]);
    }
  }

  /** Replacing child i by one that may be on if it is keeps the block so. */
  lemma ReplaceStuck(cfg: Cfg, st: St, r: St, i: nat, c: St)
    requires Shape(cfg, st) && Shape(cfg, r) && i < |cfg.children| && StuckOff(cfg, st)
    requires r.children == st.children[i := c]
    requires Shape(cfg.children[i], c) && MayBeOn(cfg.children[i], c) && StuckOff(cfg.children[i], c)
    ensures StuckOff(cfg, r)
  {
  }

  lemma {:induction false} TouchStuck(cfg: Cfg, st: St, now: real)
    requires Shape(cfg, st) && StuckOff(cfg, st)
    ensures StuckOff(cfg, Touch(cfg, st, now))
    ensures Touch(cfg, st, now).vars == st.vars && Touch(cfg, st, now).power == st.power
    decreases cfg
  {
    forall i | 0 <= i < |cfg.children|
      ensures var c := Touch(cfg, st, now).children[i]; MayBeOn(cfg.children[i], c) && StuckOff(cfg.children[i], c)
    {
      TouchStuck(cfg.children[i], st.children[i], now);
    }
  }

  lemma MayBeOnFramed(cfg: Cfg, a: St, b: St)
    requires Shape(cfg, a) && Shape(cfg, b) && Framed(cfg, a, b) && MayBeOn(cfg, a) && (b.power ==> a.power)
    ensures MayBeOn(cfg, b)
  {
    FitsFramed(a.vars, b.vars, cfg.use.Keys, cfg.on);
  }

  lemma {:induction false} PowerOffStuck(cfg: Cfg, st: St, i: nat)
    requires Shape(cfg, st) && i <= |cfg.children| && StuckOff(cfg, st)
    ensures var (r, o) := PowerOffFrom(cfg, st, i); StuckOff(cfg, r) && (r.power ==> st.power)
    decreases cfg, |cfg.children| - i
  {
    hide MayBeOn, Framed;
    if i < |cfg.children| {
      var cc, c := cfg.children[i], st.children[i];
      PowerOffStuck(cc, c, 0);
      PowerOffFramed(cc, c, 0);
      var c1 := PowerOff(cc, c).0;
      MayBeOnFramed(cc, c, c1);
      var (st1, o1) := PowerOffChild(cfg, st, i);
      assert st1.children == st.children[i := c1];
      ReplaceStuck(cfg, st, st1, i, c1);
      if o1.Ok? { PowerOffStuck(cfg, st1, i + 1); }
    }
  }

  lemma OnEdgeStuck(env: Env, cc: Cfg, c: St, vals: Params, tick: Tick)
    requires Shape(cc, c) && StuckOff(cc, c) && !c.power
    ensures var r := Switch(env, cc, c, true, vals, tick).0; MayBeOn(cc, r) && StuckOff(cc, r)
  {
    hide Write, Fits;
    WriteOkIff(c.vars, cc.on);
    WriteEdgeFramed(cc, c, cc.on);
    var (c1, o) := WriteEdge(cc, c, cc.on);
    FitsFramed(c.vars, c1.vars, cc.use.Keys, cc.on);
    assert StuckOff(cc, c1);
    TouchStuck(cc, c1, tick.now);
  }

  lemma {:induction false} SwitchStuck(env: Env, cc: Cfg, c: St, pow: bool, vals: Params, tick: Tick)
    requires Shape(cc, c) && MayBeOn(cc, c) && StuckOff(cc, c)
    ensures var r := Switch(env, cc, c, pow, vals, tick).0; MayBeOn(cc, r) && StuckOff(cc, r)
    decreases cc, 4
  {
    hide MayBeOn, Framed;
    var r := Switch(env, cc, c, pow, vals, tick).0;
    if pow && !c.power {
      OnEdgeStuck(env, cc, c, vals, tick);
    } else {
      SwitchFramed(env, cc, c, pow, vals, tick);
      MayBeOnFramed(cc, c, r);
      if pow {
        CallStuck(env, cc, PreCall(cc, c, tick.now), tick, vals);
      } else if c.power {
        PowerOffStuck(cc, c, 0);
      }
    }
  }

  lemma {:induction false} RunChildStuck(env: Env, cfg: Cfg, st: St, i: nat, tick: Tick, up: Params)
    requires Shape(cfg, st) && i < |cfg.children| && StuckOff(cfg, st)
    ensures StuckOff(cfg, RunObj(env, cfg, st, Child(i), tick, up).0)
    decreases cfg, 1, 0
  {
    hide Switch, RunObj, MayBeOn;
    var cc, c, vals := cfg.children[i], st.children[i], Vals(st.vars);
    var p := Powered(cc.cond, vals);
    if p.Ok? { SwitchStuck(env, cc, c, p.value, vals, tick); }
    var g := GuardChild(env, cc, c, vals, tick).0;
    assert MayBeOn(cc, g) && StuckOff(cc, g);
    RunObjLocal(env, cfg, st, Child(i), tick, up);
    ChildAfterTurn(env, cfg, st, i, tick, up);
    NamesDoNotMatter(cc, g);
    var r := RunObj(env, cfg, st, Child(i), tick, up).0;
    assert r.children == st.children[i := r.children[i]];
    ReplaceStuck(cfg, st, r, i, r.children[i]);
  }

  lemma NamesDoNotMatter(cc: Cfg, c: St)
    requires Shape(cc, c) && MayBeOn(cc, c) && StuckOff(cc, c)
    ensures var r := c.(errBlocks := {}); Shape(cc, r) && MayBeOn(cc, r) && StuckOff(cc, r)
  {
  }

  lemma {:induction false} RunObjsStuck(env: Env, cfg: Cfg, st: St, refs: seq<Ref>, tick: Tick, up: Params)
    requires Shape(cfg, st) && (forall r <- refs :: ValidRef(cfg, r)) && StuckOff(cfg, st)
    ensures StuckOff(cfg, RunObjs(env, cfg, st, refs, tick, up).0)
    decreases cfg, 2, |refs|
  {
    hide RunObj, MayBeOn;
    if refs != [] {
      assert ValidRef(cfg, refs[0]);
      if refs[0].Child? {
        RunChildStuck(env, cfg, st, refs[0].i, tick, up);
      } else {
        RunObjLocal(env, cfg, st, refs[0], tick, up);
      }
      var (st1, o, _) := RunObj(env, cfg, st, refs[0], tick, up);
      if o.Ok? { RunObjsStuck(env, cfg, st1, refs[1..], tick, up); }
    }
  }

  /** A step switches no block on whose power-on values do not fit, at any depth. */
  lemma {:induction false} CallStuck(env: Env, cfg: Cfg, st: St, tick: Tick, up: Params)
    requires Shape(cfg, st) && StuckOff(cfg, st)
    ensures StuckOff(cfg, Call(env, cfg, st, tick, up).0)
    decreases cfg, 3
  {
    hide RunObjs, Schedule;
    var (st1, o) := Begin(cfg, st, up);
    if o.Ok? {
      ScheduleValid(cfg, st1, tick.time);
      RunObjsStuck(env, cfg, st1, Schedule(cfg, st1, tick.time), tick, up);
    }
  }
}
