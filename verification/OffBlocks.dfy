/** Blocks that are off: from a falling edge to the next rising one they hold their power-off values. */
module OffBlocks {
  import opened Common
  import opened StringOrder
  import opened Values
  import opened Engine
  import opened StepLog
  import opened Frame
  import opened Power
  import opened Soundness

  /** The block is on, or its subtree holds its power-off values. */
  ghost predicate OnOrHeld(cfg: Cfg, st: St)
    requires Shape(cfg, st)
  {
    st.power || OffHeld(cfg, st)
  }

  /** At every depth below: what was on or held in a is so in b. */
  ghost predicate KeepsOff(cfg: Cfg, a: St, b: St)
    requires Shape(cfg, a) && Shape(cfg, b)
    decreases cfg
  {
    forall i | 0 <= i < |cfg.children| ::
      && (OnOrHeld(cfg.children[i], a.children[i]) ==> OnOrHeld(cfg.children[i], b.children[i]))
      && KeepsOff(cfg.children[i], a.children[i], b.children[i])
  }

  lemma {:induction false} KeepsOffRefl(cfg: Cfg, a: St)
    requires Shape(cfg, a)
    ensures KeepsOff(cfg, a, a)
    decreases cfg
  {
    forall i | 0 <= i < |cfg.children| ensures KeepsOff(cfg.children[i], a.children[i], a.children[i]) {
      KeepsOffRefl(cfg.children[i], a.children[i]);
    }
  }

  lemma {:induction false} KeepsOffTrans(cfg: Cfg, a: St, b: St, c: St)
    requires Shape(cfg, a) && Shape(cfg, b) && Shape(cfg, c) && KeepsOff(cfg, a, b) && KeepsOff(cfg, b, c)
    ensures KeepsOff(cfg, a, c)
    decreases cfg
  {
    forall i | 0 <= i < |cfg.children| ensures KeepsOff(cfg.children[i], a.children[i], c.children[i]) {
      KeepsOffTrans(cfg.children[i], a.children[i], b.children[i], c.children[i]);
    }
  }

  /** A subtree that holds its power-off values meets every demand. */
  lemma {:induction false} HeldKeepsOff(cfg: Cfg, a: St, b: St)
    requires Shape(cfg, a) && Shape(cfg, b) && OffHeld(cfg, b)
    ensures KeepsOff(cfg, a, b)
    decreases cfg
  {
    forall i | 0 <= i < |cfg.children| ensures KeepsOff(cfg.children[i], a.children[i], b.children[i]) {
      HeldKeepsOff(cfg.children[i], a.children[i], b.children[i]);
    }
  }

  /** Only variables, flags and children matter, and only those of the children. */
  lemma OwnKeepsOff(cfg: Cfg, a: St, b: St)
    requires Shape(cfg, a) && b.children == a.children && b.subs == a.subs
    ensures Shape(cfg, b) && KeepsOff(cfg, a, b)
    ensures b.vars == a.vars ==> (OffHeld(cfg, b) <==> OffHeld(cfg, a))
  {
    KeepsOffRefl(cfg, a);
  }

  lemma ReplaceKeepsOff(cfg: Cfg, a: St, b: St, i: nat, c: St)
    requires Shape(cfg, a) && Shape(cfg, b) && i < |cfg.children| && b.children == a.children[i := c]
    requires Shape(cfg.children[i], c) && KeepsOff(cfg.children[i], a.children[i], c)
    requires OnOrHeld(cfg.children[i], a.children[i]) ==> OnOrHeld(cfg.children[i], c)
    ensures KeepsOff(cfg, a, b)
  {
    hide OnOrHeld;
    KeepsOffRefl(cfg, a);
  }

  lemma {:induction false} TouchKeepsOff(cfg: Cfg, st: St, now: real)
    requires Shape(cfg, st)
    ensures KeepsOff(cfg, st, Touch(cfg, st, now)) && (OffHeld(cfg, st) ==> OffHeld(cfg, Touch(cfg, st, now)))
    ensures Touch(cfg, st, now).power == st.power
    decreases cfg
  {
    TouchKeepsVars(cfg, st, now);
    forall i | 0 <= i < |cfg.children|
      ensures var c, c1 := st.children[i], Touch(cfg, st, now).children[i];
              && KeepsOff(cfg.children[i], c, c1) && c1.power == c.power
              && (OffHeld(cfg.children[i], c) ==> OffHeld(cfg.children[i], c1))
    {
      TouchKeepsOff(cfg.children[i], st.children[i], now);
    }
  }

  /** A turn of the power switch on a well-wired child. */
  lemma {:induction false} SwitchKeepsOff(env: Env, cc: Cfg, c: St, pow: bool, vals: Params, tick: Tick)
    requires Shape(cc, c) && WellWired(cc, c)
    ensures var r := Switch(env, cc, c, pow, vals, tick).0;
            KeepsOff(cc, c, r) && (OnOrHeld(cc, c) ==> OnOrHeld(cc, r))
    decreases cc, 4
  {
    hide KeepsOff, OffHeld, WellWired;
    if pow && c.power {
      var c0 := PreCall(cc, c, tick.now);
      OwnKeepsOff(cc, c, c0);
      OwnFramed(cc, c, c0);
      WellWiredFramed(cc, c, c0);
      CallKeepsOff(env, cc, c0, tick, vals);
      CallKeepsFlag(env, cc, c0, tick, vals);
      var c1 := Call(env, cc, c0, tick, vals).0;
      OwnKeepsOff(cc, c1, c1.(power := true));
      KeepsOffTrans(cc, c, c0, c1);
      KeepsOffTrans(cc, c, c1, c1.(power := true));
    } else if pow {
      OnEdgeKeepsOff(env, cc, c, vals, tick);
    } else if c.power {
      PowerOffSound(cc, c, 0);
      PowerOffHolds(cc, c, 0);
      var c1 := PowerOff(cc, c).0;
      OwnKeepsOff(cc, c1, c1.(power := false));
      HeldKeepsOff(cc, c, c1.(power := false));
    } else {
      OwnKeepsOff(cc, c, c.(power := false));
    }
  }

  lemma OnEdgeKeepsOff(env: Env, cc: Cfg, c: St, vals: Params, tick: Tick)
    requires Shape(cc, c) && WellWired(cc, c) && !c.power
    ensures var r := Switch(env, cc, c, true, vals, tick).0; KeepsOff(cc, c, r) && OnOrHeld(cc, r)
  {
    hide KeepsOff, OffHeld, Write;
    WriteEdgeOk(cc, c, cc.on);
    var c1 := WriteEdge(cc, c, cc.on).0;
    var c2 := Touch(cc, c1, tick.now);
    OwnKeepsOff(cc, c, c1);
    TouchKeepsOff(cc, c1, tick.now);
    OwnKeepsOff(cc, c2, c2.(power := true));
    KeepsOffTrans(cc, c, c1, c2);
    KeepsOffTrans(cc, c, c2, c2.(power := true));
  }

  lemma {:induction false} GuardChildKeepsOff(env: Env, cc: Cfg, c: St, vals: Params, tick: Tick)
    requires Shape(cc, c) && WellWired(cc, c)
    ensures var r := GuardChild(env, cc, c, vals, tick).0;
            KeepsOff(cc, c, r) && (OnOrHeld(cc, c) ==> OnOrHeld(cc, r))
    decreases cc, 5
  {
    hide Switch, KeepsOff, OnOrHeld, WellWired;
    var p := Powered(cc.cond, vals);
    KeepsOffRefl(cc, c);
    if p.Ok? { SwitchKeepsOff(env, cc, c, p.value, vals, tick); }
  }

  lemma {:induction false} RunChildKeepsOff(env: Env, cfg: Cfg, st: St, i: nat, tick: Tick, up: Params)
    requires Shape(cfg, st) && i < |cfg.children| && WellWired(cfg, st)
    ensures KeepsOff(cfg, st, RunObj(env, cfg, st, Child(i), tick, up).0)
    decreases cfg, 1, 0
  {
    hide GuardChild, RunObj, KeepsOff;
    var cc, c := cfg.children[i], st.children[i];
    GuardChildKeepsOff(env, cc, c, Vals(st.vars), tick);
    var g := GuardChild(env, cc, c, Vals(st.vars), tick).0;
    RunObjLocal(env, cfg, st, Child(i), tick, up);
    ChildAfterTurn(env, cfg, st, i, tick, up);
    OwnKeepsOff(cc, g, g.(errBlocks := {}));
    KeepsOffTrans(cc, c, g, g.(errBlocks := {}));
    var r := RunObj(env, cfg, st, Child(i), tick, up).0;
    assert r.children == st.children[i := r.children[i]];
    ReplaceKeepsOff(cfg, st, r, i, r.children[i]);
  }

  lemma SubKeepsOff(env: Env, cfg: Cfg, st: St, j: nat, tick: Tick, up: Params)
    requires Shape(cfg, st) && j < |cfg.subs|
    ensures KeepsOff(cfg, st, RunObj(env, cfg, st, Sub(j), tick, up).0)
  {
    hide RunObj;
    RunObjLocal(env, cfg, st, Sub(j), tick, up);
    KeepsOffRefl(cfg, st);
  }

  lemma {:induction false} RunObjsKeepsOff(env: Env, cfg: Cfg, st: St, refs: seq<Ref>, tick: Tick, up: Params)
    requires Shape(cfg, st) && (forall r <- refs :: ValidRef(cfg, r)) && WellWired(cfg, st)
    ensures KeepsOff(cfg, st, RunObjs(env, cfg, st, refs, tick, up).0)
    decreases cfg, 2, |refs|
  {
    hide RunObj, KeepsOff, WellWired;
    KeepsOffRefl(cfg, st);
    if refs != [] {
      assert ValidRef(cfg, refs[0]);
      if refs[0].Child? {
        RunChildKeepsOff(env, cfg, st, refs[0].i, tick, up);
      } else {
        SubKeepsOff(env, cfg, st, refs[0].j, tick, up);
      }
      var (st1, o, _) := RunObj(env, cfg, st, refs[0], tick, up);
      if o.Ok? {
        RunObjFramed(env, cfg, st, refs[0], tick, up);
        WellWiredFramed(cfg, st, st1);
        RunObjsKeepsOff(env, cfg, st1, refs[1..], tick, up);
        KeepsOffTrans(cfg, st, st1, RunObjs(env, cfg, st1, refs[1..], tick, up).0);
      }
    }
  }

  /** A step of a well-wired block, also one that throws: at every depth a block that is on, or off with its
      power-off values, is so afterwards. */
  lemma {:induction false} CallKeepsOff(env: Env, cfg: Cfg, st: St, tick: Tick, up: Params)
    requires Shape(cfg, st) && WellWired(cfg, st)
    ensures KeepsOff(cfg, st, Call(env, cfg, st, tick, up).0)
    decreases cfg, 3
  {
    hide RunObjs, Schedule, KeepsOff, WellWired, CopyUseFrom;
    var (st1, o) := Begin(cfg, st, up);
    OwnKeepsOff(cfg, st, st1);
    if o.Ok? {
      CopyUseFramed(st.vars, SortedKeys(cfg.use.Keys), cfg.use, up);
      OwnFramed(cfg, st, st1);
      WellWiredFramed(cfg, st, st1);
      ScheduleValid(cfg, st1, tick.time);
      var refs := Schedule(cfg, st1, tick.time);
      RunObjsKeepsOff(env, cfg, st1, refs, tick, up);
      KeepsOffTrans(cfg, st, st1, RunObjs(env, cfg, st1, refs, tick, up).0);
    }
  }
}
