/** The previous-power flags over the tree, and what a block holds after its power went off. */
module Power {
  import opened Common
  import opened StringOrder
  import opened Values
  import opened Engine
  import opened Scheduling
  import opened StepLog

  /** No descendant has its previous-power flag set. */
  ghost predicate DarkBelow(cfg: Cfg, st: St)
    requires Shape(cfg, st)
    decreases cfg
  {
    forall i | 0 <= i < |cfg.children| :: !st.children[i].power && DarkBelow(cfg.children[i], st.children[i])
  }

  /** At every depth of the subtree: flag down means all flags below are down. */
  ghost predicate PowerClosed(cfg: Cfg, st: St)
    requires Shape(cfg, st)
    decreases cfg
  {
    && (!st.power ==> DarkBelow(cfg, st))
    && forall i | 0 <= i < |cfg.children| :: PowerClosed(cfg.children[i], st.children[i])
  }

  /** The invariant of the whole tree; the root's own flag plays no part. */
  ghost predicate PowerInv(cfg: Cfg, st: St)
    requires Shape(cfg, st)
  {
    forall i | 0 <= i < |cfg.children| :: PowerClosed(cfg.children[i], st.children[i])
  }

  lemma {:induction false} DarkIsClosed(cfg: Cfg, st: St)
    requires Shape(cfg, st) && DarkBelow(cfg, st)
    ensures PowerInv(cfg, st)
    decreases cfg
  {
    forall i | 0 <= i < |cfg.children| ensures PowerClosed(cfg.children[i], st.children[i]) {
      DarkIsClosed(cfg.children[i], st.children[i]);
    }
  }

  lemma {:induction false} TouchKeepsDark(cfg: Cfg, st: St, now: real)
    requires Shape(cfg, st) && DarkBelow(cfg, st)
    ensures DarkBelow(cfg, Touch(cfg, st, now)) && Touch(cfg, st, now).power == st.power
    decreases cfg
  {
    forall i | 0 <= i < |cfg.children|
      ensures var c := Touch(cfg, st, now).children[i]; !c.power && DarkBelow(cfg.children[i], c)
    {
      TouchKeepsDark(cfg.children[i], st.children[i], now);
    }
  }

  /** power_off_children keeps the invariant when it throws half way, and leaves the whole subtree
      dark when it does not. */
  lemma {:induction false} PowerOffInv(cfg: Cfg, st: St, i: nat)
    requires Shape(cfg, st) && i <= |cfg.children| && PowerInv(cfg, st)
    requires forall k | 0 <= k < i :: !st.children[k].power && DarkBelow(cfg.children[k], st.children[k])
    ensures var (r, o) := PowerOffFrom(cfg, st, i);
            && PowerInv(cfg, r)
            && (o.Ok? ==> !r.power && DarkBelow(cfg, r))
            && (o.Throw? ==> r.power == st.power)
            && (DarkBelow(cfg, st) ==> DarkBelow(cfg, r))
    decreases cfg, 1, |cfg.children| - i
  {
    if i < |cfg.children| {
      var (st1, o1) := PowerOffChild(cfg, st, i);
      PowerOffChildInv(cfg, st, i);
      if o1.Ok? { PowerOffInv(cfg, st1, i + 1); }
    }
  }

  lemma {:induction false} PowerOffChildInv(cfg: Cfg, st: St, i: nat)
    requires Shape(cfg, st) && i < |cfg.children| && PowerInv(cfg, st)
    ensures var (r, o) := PowerOffChild(cfg, st, i);
            && PowerInv(cfg, r) && r.power == st.power
            && r.children == st.children[i := r.children[i]]
            && (o.Ok? ==> !r.children[i].power && DarkBelow(cfg.children[i], r.children[i]))
            && (DarkBelow(cfg, st) ==> DarkBelow(cfg, r))
    decreases cfg, 0
  {
    var cc, c := cfg.children[i], st.children[i];
    assert PowerClosed(cc, c);
    PowerOffInv(cc, c, 0);
    var c1 := PowerOff(cc, c).0;
    assert PowerClosed(cc, c1);
    ReplaceChildInv(cfg, st, st.(children := st.children[i := c1]), i, c1);
  }

  lemma {:induction false} SwitchInv(env: Env, cc: Cfg, c: St, pow: bool, vals: Params, tick: Tick)
    requires Shape(cc, c) && PowerClosed(cc, c)
    ensures PowerClosed(cc, Switch(env, cc, c, pow, vals, tick).0)
    decreases cc, 4
  {
    if pow && c.power {
      CallInv(env, cc, PreCall(cc, c, tick.now), tick, vals);
      CallKeepsFlag(env, cc, PreCall(cc, c, tick.now), tick, vals);
    } else if pow {
      var (c1, o) := WriteEdge(cc, c, cc.on);
      assert DarkBelow(cc, c1);
      TouchKeepsDark(cc, c1, tick.now);
      DarkIsClosed(cc, c1);
      DarkIsClosed(cc, Touch(cc, c1, tick.now));
    } else if c.power {
      PowerOffInv(cc, c, 0);
    }
  }

  /** Replacing child i by a closed one keeps the invariant of the block. */
  lemma ReplaceChildInv(cfg: Cfg, st: St, r: St, i: nat, c: St)
    requires Shape(cfg, st) && Shape(cfg, r) && i < |cfg.children| && PowerInv(cfg, st)
    requires r.children == st.children[i := c] && Shape(cfg.children[i], c) && PowerClosed(cfg.children[i], c)
    ensures PowerInv(cfg, r)
  {
  }

  lemma ErrBlocksDoNotMatter(cfg: Cfg, st: St, names: set<string>)
    requires Shape(cfg, st) && PowerClosed(cfg, st)
    ensures Shape(cfg, st.(errBlocks := names)) && PowerClosed(cfg, st.(errBlocks := names))
  {
  }

  lemma {:induction false} GuardChildInv(env: Env, cc: Cfg, c: St, vals: Params, tick: Tick)
    requires Shape(cc, c) && PowerClosed(cc, c)
    ensures PowerClosed(cc, GuardChild(env, cc, c, vals, tick).0)
    decreases cc, 5
  {
    hide Switch, PowerClosed;
    var p := Powered(cc.cond, vals);
    if p.Ok? { SwitchInv(env, cc, c, p.value, vals, tick); }
  }

  lemma {:induction false} RunChildInv(env: Env, cfg: Cfg, st: St, i: nat, tick: Tick, up: Params)
    requires Shape(cfg, st) && i < |cfg.children| && PowerInv(cfg, st)
    ensures PowerInv(cfg, RunObj(env, cfg, st, Child(i), tick, up).0)
    decreases cfg, 1, 0
  {
    hide GuardChild, PowerClosed, RunObj;
    RunObjLocal(env, cfg, st, Child(i), tick, up);
    GuardChildInv(env, cfg.children[i], st.children[i], Vals(st.vars), tick);
    ChildAfterTurn(env, cfg, st, i, tick, up);
    ErrBlocksDoNotMatter(cfg.children[i], GuardChild(env, cfg.children[i], st.children[i], Vals(st.vars), tick).0, {});
    var r := RunObj(env, cfg, st, Child(i), tick, up).0;
    assert r.children == st.children[i := r.children[i]];
    ReplaceChildInv(cfg, st, r, i, r.children[i]);
  }

  lemma {:induction false} RunObjInv(env: Env, cfg: Cfg, st: St, ref: Ref, tick: Tick, up: Params)
    requires Shape(cfg, st) && ValidRef(cfg, ref) && PowerInv(cfg, st)
    ensures PowerInv(cfg, RunObj(env, cfg, st, ref, tick, up).0)
    decreases cfg, 1, 1
  {
    hide PowerClosed, RunObj;
    match ref
    case Child(i) => RunChildInv(env, cfg, st, i, tick, up);
    case Sub(j) => RunObjLocal(env, cfg, st, ref, tick, up);
  }

  lemma {:induction false} RunObjsInv(env: Env, cfg: Cfg, st: St, refs: seq<Ref>, tick: Tick, up: Params)
    requires Shape(cfg, st) && (forall r <- refs :: ValidRef(cfg, r)) && PowerInv(cfg, st)
    ensures PowerInv(cfg, RunObjs(env, cfg, st, refs, tick, up).0)
    decreases cfg, 2, |refs|
  {
    if refs != [] {
      RunObjInv(env, cfg, st, refs[0], tick, up);
      var (st1, o, _) := RunObj(env, cfg, st, refs[0], tick, up);
      if o.Ok? { RunObjsInv(env, cfg, st1, refs[1..], tick, up); }
    }
  }

  /** After its turn a child is what the guarded region left, up to the fetched error names. */
  lemma ChildAfterTurn(env: Env, cfg: Cfg, st: St, i: nat, tick: Tick, up: Params)
    requires Shape(cfg, st) && i < |cfg.children|
    ensures var c := RunObj(env, cfg, st, Child(i), tick, up).0.children[i];
            var g := GuardChild(env, cfg.children[i], st.children[i], Vals(st.vars), tick).0;
            c == g || c == g.(errBlocks := {})
  {
    RunChildOutcome(env, cfg, st, i, tick, up);
  }

  lemma {:induction false} CallInv(env: Env, cfg: Cfg, st: St, tick: Tick, up: Params)
    requires Shape(cfg, st) && PowerInv(cfg, st)
    ensures PowerInv(cfg, Call(env, cfg, st, tick, up).0)
    decreases cfg, 3
  {
    var (st1, o) := Begin(cfg, st, up);
    if o.Ok? {
      ScheduleValid(cfg, st1, tick.time);
      RunObjsInv(env, cfg, st1, Schedule(cfg, st1, tick.time), tick, up);
    }
  }

  // ----- the values an off block holds -----

  ghost predicate HoldsEdge(vars: Vars, edge: Params) {
    forall k | k in edge && k in vars && !vars[k].locked :: vars[k].val == edge[k]
  }

  /** Every block of the subtree holds its power-off values in its unlocked listed variables. */
  ghost predicate OffHeld(cfg: Cfg, st: St)
    requires Shape(cfg, st)
    decreases cfg
  {
    && HoldsEdge(st.vars, cfg.off)
    && forall i | 0 <= i < |cfg.children| :: OffHeld(cfg.children[i], st.children[i])
  }

  /** A completed write: exactly the unlocked present names are written, with exactly the values. */
  lemma {:induction false} WriteImage(vars: Vars, keys: seq<string>, val: Params, done: set<string>)
    requires forall k <- keys :: k in val
    requires WriteFrom(vars, keys, val, done).1.Ok?
    ensures var (vs, w) := WriteFrom(vars, keys, val, done);
            && vs.Keys == vars.Keys
            && (forall k | k in vars :: vs[k] == if k in keys && !vars[k].locked then vars[k].(val := val[k])
                 else vars[k])
            && w.value == done + set k | k in keys && k in vars && !vars[k].locked
    decreases keys
  {
    if keys != [] {
      var k, rest := keys[0], keys[1..];
      assert keys == [k] + rest;
      if k in vars && !vars[k].locked {
        var vars1 := vars[k := vars[k].(val := CopyData(vars[k].val, val[k]).value.0)];
        WriteImage(vars1, rest, val, done + {k});
      } else {
        WriteImage(vars, rest, val, done);
      }
    }
  }

  lemma WriteEdgeHolds(cfg: Cfg, st: St, edge: Params)
    requires WriteEdge(cfg, st, edge).1.Ok?
    ensures HoldsEdge(WriteEdge(cfg, st, edge).0.vars, edge)
  {
    WriteImage(st.vars, SortedKeys(edge.Keys), edge, {});
  }

  lemma {:induction false} PowerOffHolds(cfg: Cfg, st: St, i: nat)
    requires Shape(cfg, st) && i <= |cfg.children|
    requires forall k | 0 <= k < i :: OffHeld(cfg.children[k], st.children[k])
    ensures var (r, o) := PowerOffFrom(cfg, st, i); o.Ok? ==> OffHeld(cfg, r)
    decreases cfg, |cfg.children| - i
  {
    if i == |cfg.children| {
      if WriteEdge(cfg, st, cfg.off).1.Ok? { WriteEdgeHolds(cfg, st, cfg.off); }
    } else {
      var (st1, o1) := PowerOffChild(cfg, st, i);
      if o1.Ok? {
        PowerOffHolds(cfg.children[i], st.children[i], 0);
        var (c1, _) := PowerOff(cfg.children[i], st.children[i]);
        assert st1.children == st.children[i := c1];
        PowerOffHolds(cfg, st1, i + 1);
      }
    }
  }

  /** At the end of a step, a child whose power went off in it is dark to the leaves, and its whole
      subtree holds the power-off values. */
  lemma OffEdgeSettles(env: Env, cfg: Cfg, st: St, tick: Tick, up: Params, n: nat, i: nat)
    requires Shape(cfg, st) && PowerInv(cfg, st)
    requires var log := CallLog(env, cfg, st, tick, up).2;
             n < |log| && log[n].ref == Child(i) && log[n].branch == PoweredOff && log[n].out.Ok?
    ensures i < |cfg.children|
    ensures var c := CallLog(env, cfg, st, tick, up).0.children[i];
            !c.power && DarkBelow(cfg.children[i], c) && OffHeld(cfg.children[i], c)
  {
    var st1 := Begin(cfg, st, up).0;
    ScheduleIsStableSort(cfg, st1, tick.time);
    var refs := Schedule(cfg, st1, tick.time);
    var vals := ChildOutcome(env, cfg, st1, refs, tick, up, n, i);
    var c := st.children[i];
    assert PowerClosed(cfg.children[i], c);
    PowerOffInv(cfg.children[i], c, 0);
    PowerOffHolds(cfg.children[i], c, 0);
    var c1 := PowerOff(cfg.children[i], c).0;
    var c2 := CallLog(env, cfg, st, tick, up).0.children[i];
    assert c2.vars == c1.vars && c2.children == c1.children;
  }

  lemma {:induction false} TouchKeepsVars(cfg: Cfg, st: St, now: real)
    requires Shape(cfg, st)
    ensures Touch(cfg, st, now).vars == st.vars
  {
  }

  /** At the end of a step, a child whose power came on in it has its flag up and holds its power-on
      values in its unlocked listed variables. */
  lemma OnEdgeSettles(env: Env, cfg: Cfg, st: St, tick: Tick, up: Params, n: nat, i: nat)
    requires Shape(cfg, st)
    requires var log := CallLog(env, cfg, st, tick, up).2;
             n < |log| && log[n].ref == Child(i) && log[n].branch == PoweredOn && log[n].out.Ok?
    ensures i < |cfg.children|
    ensures var c := CallLog(env, cfg, st, tick, up).0.children[i]; c.power && HoldsEdge(c.vars, cfg.children[i].on)
  {
    var st1 := Begin(cfg, st, up).0;
    ScheduleIsStableSort(cfg, st1, tick.time);
    var vals := ChildOutcome(env, cfg, st1, Schedule(cfg, st1, tick.time), tick, up, n, i);
    var cc, c := cfg.children[i], st.children[i];
    WriteEdgeHolds(cc, c, cc.on);
    TouchKeepsVars(cc, WriteEdge(cc, c, cc.on).0, tick.now);
  }
}
