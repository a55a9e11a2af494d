/** Wire coherence: a variable fed by a child keeps the value of its source. */
module Wires {
  import opened Common
  import opened StringOrder
  import opened Values
  import opened Engine
  import opened Scheduling
  import opened StepLog
  import opened Frame
  import opened Power
  import opened Soundness

  /** No child of the block feeds variable v. */
  predicate NotFed(cfg: Cfg, v: string) {
    forall i | 0 <= i < |cfg.children| :: v !in cfg.children[i].ret
  }

  /** The wire into d of child i that nothing bypasses: its source is not fed from further below,
      and its target is neither a USE destination nor listed in the block's own edge values. */
  predicate CleanWire(cfg: Cfg, i: nat, d: string)
    requires i < |cfg.children|
  {
    && d in cfg.children[i].ret && NotFed(cfg.children[i], cfg.children[i].ret[d])
    && d !in cfg.use && d !in cfg.on && d !in cfg.off
  }

  ghost predicate WireHolds(cfg: Cfg, st: St, i: nat, d: string)
    requires Shape(cfg, st) && i < |cfg.children| && d in cfg.children[i].ret
  {
    && d in st.vars && cfg.children[i].ret[d] in st.children[i].vars
    && st.vars[d].val == st.children[i].vars[cfg.children[i].ret[d]].val
  }

  predicate Locked(vars: Vars, v: string) {
    v in vars && vars[v].locked
  }

  /** Every clean wire of the tree into a variable that is not locked holds. */
  ghost predicate Coherent(cfg: Cfg, st: St)
    requires Shape(cfg, st)
    decreases cfg
  {
    && (forall i, d | 0 <= i < |cfg.children| && CleanWire(cfg, i, d) && !Locked(st.vars, d) ::
          WireHolds(cfg, st, i, d))
    && forall i | 0 <= i < |cfg.children| :: Coherent(cfg.children[i], st.children[i])
  }

  ghost predicate SubAvoidsFed(env: Env, cfg: Cfg, sc: SubCfg) {
    forall t: real, d: real, v: Params, u: Params {:trigger CallFn(env, sc, t, d, v, u)} |
      CallFn(env, sc, t, d, v, u).Ok? :: forall k <- CallFn(env, sc, t, d, v, u).value :: NotFed(cfg, k)
  }

  /** At every depth: a variable has at most one feeding child, and no subprogram writes a fed
      variable. */
  ghost predicate Tidy(env: Env, cfg: Cfg)
    decreases cfg
  {
    && (forall i, k | 0 <= i < |cfg.children| && 0 <= k < |cfg.children| && i != k ::
          cfg.children[i].ret.Keys !! cfg.children[k].ret.Keys)
    && (forall j | 0 <= j < |cfg.subs| :: SubAvoidsFed(env, cfg, cfg.subs[j]))
    && forall i | 0 <= i < |cfg.children| :: Tidy(env, cfg.children[i])
  }

  /** What a child reports agrees with what it now holds; what it does not report it did not change.
      Nothing is said about sources that are themselves fed from below. */
  ghost predicate Reported(cc: Cfg, c: St, c1: St, m: Params) {
    && m.Keys <= cc.ret.Keys
    && forall d | d in cc.ret && NotFed(cc, cc.ret[d]) ::
         var s := cc.ret[d];
         && s in c.vars && s in c1.vars
         && c1.vars[s].val == if d in m then m[d] else c.vars[s].val
  }

  /** Variables other than those in touched are the same. */
  ghost predicate SameOutside(a: Vars, b: Vars, touched: set<string>) {
    a.Keys == b.Keys && forall k | k in a && k !in touched :: b[k] == a[k]
  }

  lemma {:induction false} CopyUseOutside(vars: Vars, keys: seq<string>, use: map<string, string>, up: Params)
    requires forall k <- keys :: k in use
    ensures SameOutside(vars, CopyUseFrom(vars, keys, use, up).0, use.Keys)
    decreases keys
  {
    if keys != [] {
      var k := keys[0];
      if k in vars && use[k] in up && CopyData(vars[k].val, up[use[k]]).Ok? {
        CopyUseOutside(vars[k := vars[k].(val := CopyData(vars[k].val, up[use[k]]).value.0)], keys[1..], use, up);
      }
    }
  }

  lemma WriteOutside(vars: Vars, val: Params)
    requires Write(vars, val).1.Ok?
    ensures SameOutside(vars, Write(vars, val).0, val.Keys)
  {
    WriteImage(vars, SortedKeys(val.Keys), val, {});
  }

  /** Writing only unfed or unclean targets keeps the wires. */
  lemma OwnCoherent(cfg: Cfg, a: St, b: St, touched: set<string>)
    requires Shape(cfg, a) && Shape(cfg, b) && Coherent(cfg, a)
    requires b.children == a.children && SameOutside(a.vars, b.vars, touched)
    requires forall i, d | 0 <= i < |cfg.children| && CleanWire(cfg, i, d) :: d !in touched
    ensures Coherent(cfg, b)
  {
    forall i, d | 0 <= i < |cfg.children| && CleanWire(cfg, i, d) && !Locked(b.vars, d)
      ensures WireHolds(cfg, b, i, d)
    {
      assert WireHolds(cfg, a, i, d);
    }
  }

  lemma {:induction false} ErrBlocksKeepCoherent(cfg: Cfg, st: St, names: set<string>, msgs: seq<ErrorMsg>)
    requires Shape(cfg, st) && Coherent(cfg, st)
    ensures var r := st.(errBlocks := names, errors := msgs); Shape(cfg, r) && Coherent(cfg, r)
  {
    OwnCoherent(cfg, st, st.(errBlocks := names, errors := msgs), {});
  }

  /** A child that moved to c1 and reported m, once m is written, feeds what it holds. */
  lemma ReportRestoresWires(cfg: Cfg, st: St, i: nat, c1: St, m: Params, b: St)
    requires Shape(cfg, st) && i < |cfg.children| && Coherent(cfg, st)
    requires Shape(cfg.children[i], c1) && Coherent(cfg.children[i], c1) &&
             Reported(cfg.children[i], st.children[i], c1, m)
    requires forall k | 0 <= k < |cfg.children| && i != k :: cfg.children[i].ret.Keys !! cfg.children[k].ret.Keys
    requires Shape(cfg, b) && b.children == st.children[i := c1]
    requires Write(st.vars, m) == (b.vars, Write(st.vars, m).1) && Write(st.vars, m).1.Ok?
    ensures Coherent(cfg, b)
  {
    WriteImage(st.vars, SortedKeys(m.Keys), m, {});
    forall k, d | 0 <= k < |cfg.children| && CleanWire(cfg, k, d) && !Locked(b.vars, d)
      ensures WireHolds(cfg, b, k, d)
    {
      assert WireHolds(cfg, st, k, d);
      if k != i { assert d in cfg.children[k].ret.Keys && d !in cfg.children[i].ret.Keys; }
    }
  }

  lemma WriteEdgeReports(cc: Cfg, c: St, edge: Params)
    requires Shape(cc, c) && WriteEdge(cc, c, edge).1.Ok?
    requires forall d | d in cc.ret :: cc.ret[d] in c.vars
    ensures var (c1, o) := WriteEdge(cc, c, edge);
            Reported(cc, c, c1, o.value) && SameOutside(c.vars, c1.vars, edge.Keys)
  {
    WriteImage(c.vars, SortedKeys(edge.Keys), edge, {});
  }

  lemma RetPresent(cc: Cfg, near: map<string, Ty>, far: map<string, Ty>)
    requires WiresTyped(cc.ret, near, far)
    ensures forall d | d in cc.ret :: d in near && cc.ret[d] in far
  {
    forall d | d in cc.ret ensures d in near && cc.ret[d] in far { var _ := cc.ret[d]; }
  }

  // ----- the steps -----

  lemma {:induction false} PowerOffCoherent(env: Env, cfg: Cfg, st: St, i: nat)
    requires Shape(cfg, st) && i <= |cfg.children| && WellWired(cfg, st)
    requires Tidy(env, cfg) && Coherent(cfg, st)
    requires forall d | d in cfg.ret :: cfg.ret[d] in st.vars
    ensures var (r, o) := PowerOffFrom(cfg, st, i);
            o.Ok? && Coherent(cfg, r) && Reported(cfg, st, r, o.value)
    decreases cfg, 1, |cfg.children| - i
  {
    hide WellWired;
    if i == |cfg.children| {
      PowerOffSound(cfg, st, i);
      WriteEdgeReports(cfg, st, cfg.off);
      OwnCoherent(cfg, st, PowerOffFrom(cfg, st, i).0, cfg.off.Keys);
    } else {
      PowerOffChildCoherent(env, cfg, st, i);
      PowerOffChildKeeps(cfg, st, i);
      var st2 := PowerOffChild(cfg, st, i).0;
      PowerOffCoherent(env, cfg, st2, i + 1);
      var (r, o) := PowerOffFrom(cfg, st2, i + 1);
      ReportedSince(cfg, st, st2, r, o.value);
    }
  }

  lemma ReportedSince(cc: Cfg, a: St, b: St, c1: St, m: Params)
    requires Reported(cc, b, c1, m)
    requires forall d | d in cc.ret :: cc.ret[d] in a.vars
    requires forall v | v in a.vars && NotFed(cc, v) :: v in b.vars && b.vars[v] == a.vars[v]
    ensures Reported(cc, a, c1, m)
  {
  }

  lemma {:induction false} PowerOffChildCoherent(env: Env, cfg: Cfg, st: St, i: nat)
    requires Shape(cfg, st) && i < |cfg.children| && WellWired(cfg, st)
    requires Tidy(env, cfg) && Coherent(cfg, st)
    ensures var st2 := PowerOffChild(cfg, st, i).0;
            && Coherent(cfg, st2)
            && forall v | v in st.vars && NotFed(cfg, v) :: v in st2.vars && st2.vars[v] == st.vars[v]
    decreases cfg, 0
  {
    var cc, c := cfg.children[i], st.children[i];
    RetPresent(cc, VarTypes(st.vars), VarTypes(c.vars));
    PowerOffCoherent(env, cc, c, 0);
    var (c1, o) := PowerOff(cc, c);
    var st2 := PowerOffChild(cfg, st, i).0;
    PowerOffChildKeeps(cfg, st, i);
    ReportRestoresWires(cfg, st, i, c1, o.value, st2);
    WriteOutside(st.vars, o.value);
    forall v | v in st.vars && NotFed(cfg, v) ensures v in st2.vars && st2.vars[v] == st.vars[v] {
      assert v !in cc.ret;
    }
  }

  /** The conditions that a turn of power_off_children keeps. */
  lemma PowerOffChildKeeps(cfg: Cfg, st: St, i: nat)
    requires Shape(cfg, st) && i < |cfg.children| && WellWired(cfg, st)
    ensures var (st2, o2) := PowerOffChild(cfg, st, i);
            var (c1, o) := PowerOff(cfg.children[i], st.children[i]);
            && o.Ok? && o2.Ok? && WellWired(cfg, st2)
            && st2.children == st.children[i := c1] && Write(st.vars, o.value) == (st2.vars, Write(st.vars, o.value).1)
            && Write(st.vars, o.value).1.Ok?
            && st2.vars.Keys == st.vars.Keys
  {
    var (c1, o) := PowerOff(cfg.children[i], st.children[i]);
    PowerOffSound(cfg.children[i], st.children[i], 0);
    PowerOffFramed(cfg.children[i], st.children[i], 0);
    ChildFramed(cfg, st, i, c1);
    var st1 := st.(children := st.children[i := c1]);
    WellWiredFramed(cfg, st, st1);
    WriteBackOk(cfg, st1, i, o);
    WriteBackFramed(cfg, st1, o);
    var st2 := WriteBack(st1, o).0;
    WellWiredFramed(cfg, st1, st2);
  }

  lemma {:induction false} TouchCoherent(cfg: Cfg, st: St, now: real)
    requires Shape(cfg, st) && Coherent(cfg, st)
    ensures Coherent(cfg, Touch(cfg, st, now)) && Touch(cfg, st, now).vars == st.vars
    decreases cfg
  {
    var r := Touch(cfg, st, now);
    forall i | 0 <= i < |cfg.children|
      ensures Coherent(cfg.children[i], r.children[i]) && r.children[i].vars == st.children[i].vars
    {
      TouchCoherent(cfg.children[i], st.children[i], now);
    }
    forall i, d | 0 <= i < |cfg.children| && CleanWire(cfg, i, d) && !Locked(r.vars, d)
      ensures WireHolds(cfg, r, i, d)
    {
      assert WireHolds(cfg, st, i, d);
    }
  }

  /** All that wires need of a block: neither that they hold already nor anything about messages or locks. */
  ghost predicate Sturdy(env: Env, cfg: Cfg, st: St, upTypes: map<string, Ty>)
    requires Shape(cfg, st)
  {
    WellWired(cfg, st) && RespectsTypes(env, cfg, st, upTypes) && Tidy(env, cfg)
  }

  lemma SturdyFramed(env: Env, cfg: Cfg, a: St, b: St, upTypes: map<string, Ty>)
    requires Shape(cfg, a) && Shape(cfg, b) && Framed(cfg, a, b) && Sturdy(env, cfg, a, upTypes)
    ensures Sturdy(env, cfg, b, upTypes)
  {
    WellWiredFramed(cfg, a, b);
    RespectsTypesFramed(env, cfg, a, b, upTypes);
  }

  /** Everything a step of a block needs in order to keep its wires. */
  ghost predicate Ready(env: Env, cfg: Cfg, st: St, upTypes: map<string, Ty>)
    requires Shape(cfg, st)
  {
    Sturdy(env, cfg, st, upTypes) && Coherent(cfg, st)
  }

  ghost predicate Plugged(cfg: Cfg, st: St, upTypes: map<string, Ty>) {
    && WiresTyped(cfg.use, VarTypes(st.vars), upTypes)
    && WiresTyped(cfg.ret, upTypes, VarTypes(st.vars))
  }

  /** The noted call time is no part of the wiring. */
  lemma PreCallReady(env: Env, cc: Cfg, c: St, upTypes: map<string, Ty>, now: real)
    requires Shape(cc, c) && Ready(env, cc, c, upTypes)
    ensures Shape(cc, PreCall(cc, c, now)) && Ready(env, cc, PreCall(cc, c, now), upTypes)
  {
    hide WellWired, RespectsTypes, Tidy;
    var c0 := PreCall(cc, c, now);
    OwnFramed(cc, c, c0);
    OwnCoherent(cc, c, c0, {});
    ReadyFramed(env, cc, c, c0, upTypes);
  }

  /** What the wires need of a turn of the power switch. */
  ghost predicate SwitchedCoherent(env: Env, cc: Cfg, c: St, pow: bool, vals: Params, tick: Tick)
    requires Shape(cc, c)
  {
    var (r, b, o) := Switch(env, cc, c, pow, vals, tick);
    o.Ok? && Coherent(cc, r) && Reported(cc, c, r, o.value)
  }

  lemma {:induction false} CalledCoherent(env: Env, cc: Cfg, c: St, vals: Params, tick: Tick)
    requires Shape(cc, c) && Ready(env, cc, c, TypesOf(vals)) && Plugged(cc, c, TypesOf(vals)) && c.power
    ensures SwitchedCoherent(env, cc, c, true, vals, tick)
    decreases cc, 4, 0
  {
    hide WellWired, RespectsTypes, Tidy, Call;
    PreCallReady(env, cc, c, TypesOf(vals), tick.now);
    var c0 := PreCall(cc, c, tick.now);
    RetPresent(cc, TypesOf(vals), VarTypes(c.vars));
    CallCoherent(env, cc, c0, tick, vals);
    var c1 := Call(env, cc, c0, tick, vals).0;
    OwnCoherent(cc, c1, c1.(power := true), {});
  }

  lemma OnEdgeCoherent(env: Env, cc: Cfg, c: St, vals: Params, tick: Tick)
    requires Shape(cc, c) && WellWired(cc, c) && Coherent(cc, c) && !c.power
    requires forall d | d in cc.ret :: cc.ret[d] in c.vars
    ensures SwitchedCoherent(env, cc, c, true, vals, tick)
  {
    WriteEdgeOk(cc, c, cc.on);
    WriteEdgeReports(cc, c, cc.on);
    var c1 := WriteEdge(cc, c, cc.on).0;
    OwnCoherent(cc, c, c1, cc.on.Keys);
    TouchCoherent(cc, c1, tick.now);
    var c2 := Touch(cc, c1, tick.now);
    OwnCoherent(cc, c2, c2.(power := true), {});
  }

  lemma {:induction false} OffEdgeCoherent(env: Env, cc: Cfg, c: St, vals: Params, tick: Tick)
    requires Shape(cc, c) && WellWired(cc, c) && Tidy(env, cc) && Coherent(cc, c)
    requires forall d | d in cc.ret :: cc.ret[d] in c.vars
    ensures SwitchedCoherent(env, cc, c, false, vals, tick)
  {
    hide WellWired, Tidy, PowerOffFrom;
    if c.power {
      PowerOffCoherent(env, cc, c, 0);
      var c1 := PowerOff(cc, c).0;
      OwnCoherent(cc, c1, c1.(power := false), {});
    } else {
      OwnCoherent(cc, c, c.(power := false), {});
    }
  }

  lemma {:induction false} SwitchCoherent(env: Env, cc: Cfg, c: St, pow: bool, vals: Params, tick: Tick)
    requires Shape(cc, c) && Ready(env, cc, c, TypesOf(vals)) && Plugged(cc, c, TypesOf(vals))
    ensures SwitchedCoherent(env, cc, c, pow, vals, tick)
    decreases cc, 4, 1
  {
    hide SwitchedCoherent, WellWired, RespectsTypes, Tidy, Coherent;
    RetPresent(cc, TypesOf(vals), VarTypes(c.vars));
    if !pow {
      OffEdgeCoherent(env, cc, c, vals, tick);
    } else if c.power {
      CalledCoherent(env, cc, c, vals, tick);
    } else {
      OnEdgeCoherent(env, cc, c, vals, tick);
    }
  }

  lemma RunSubCoherent(env: Env, cfg: Cfg, st: St, j: nat, tick: Tick, up: Params)
    requires Shape(cfg, st) && j < |cfg.subs| && Ready(env, cfg, st, TypesOf(up))
    ensures Coherent(cfg, RunObj(env, cfg, st, Sub(j), tick, up).0)
  {
    hide WellWired, RespectsTypes, Coherent, RunObj;
    RunSubSound(env, cfg, st, j, tick, up);
    ReportedBySub(env, cfg, st, j, tick, up);
    var (r, _, e) := RunObj(env, cfg, st, Sub(j), tick, up);
    var m: Params := if e.out.Ok? then e.out.value else map[];
    WriteOutside(st.vars, m);
    RunObjLocal(env, cfg, st, Sub(j), tick, up);
    assert r.children == st.children;
    forall i, d | 0 <= i < |cfg.children| && CleanWire(cfg, i, d) ensures d !in m.Keys { assert !NotFed(cfg, d); }
    OwnCoherent(cfg, st, r, m.Keys);
  }

  lemma {:induction false} GuardChildCoherent(env: Env, cc: Cfg, c: St, vals: Params, tick: Tick)
    requires Shape(cc, c) && Ready(env, cc, c, TypesOf(vals)) && Plugged(cc, c, TypesOf(vals))
    ensures var (c1, b, o) := GuardChild(env, cc, c, vals, tick);
            var c2 := c1.(errBlocks := {});
            Coherent(cc, c2) && Reported(cc, c, c2, if o.Ok? then o.value else map[])
    decreases cc, 5
  {
    hide Switch, WellWired, RespectsTypes, Tidy;
    var p := Powered(cc.cond, vals);
    RetPresent(cc, TypesOf(vals), VarTypes(c.vars));
    if p.Ok? { SwitchCoherent(env, cc, c, p.value, vals, tick); }
    var c1 := GuardChild(env, cc, c, vals, tick).0;
    ErrBlocksKeepCoherent(cc, c1, {}, c1.errors);
  }

  /** A child's turn: it ends coherent, reports what it holds, and the report is written. */
  lemma {:induction false} ChildTurn(env: Env, cfg: Cfg, st: St, i: nat, tick: Tick, up: Params)
    requires Shape(cfg, st) && i < |cfg.children| && Ready(env, cfg, st, TypesOf(up))
    ensures var (r, o, e) := RunObj(env, cfg, st, Child(i), tick, up);
            var m: Params := if e.out.Ok? then e.out.value else map[];
            && o.Ok? && r.children == st.children[i := r.children[i]]
            && Coherent(cfg.children[i], r.children[i])
            && Reported(cfg.children[i], st.children[i], r.children[i], m)
            && Write(st.vars, m) == (r.vars, Write(st.vars, m).1) && Write(st.vars, m).1.Ok?
    decreases cfg, 1, 0
  {
    hide Reported, Switch, RunObj;
    var vals, cc, c := Vals(st.vars), cfg.children[i], st.children[i];
    assert TypesOf(vals) == VarTypes(st.vars);
    assert Ready(env, cc, c, TypesOf(vals)) && Plugged(cc, c, TypesOf(vals));
    GuardChildCoherent(env, cc, c, vals, tick);
    RunChildSound(env, cfg, st, i, tick, up);
    RunChildOutcome(env, cfg, st, i, tick, up);
    RunObjLocal(env, cfg, st, Child(i), tick, up);
    WriteBackOfChild(env, cfg, st, i, tick, up);
  }

  /** A turn that ends well has written exactly what the child returned. */
  lemma WriteBackOfChild(env: Env, cfg: Cfg, st: St, i: nat, tick: Tick, up: Params)
    requires Shape(cfg, st) && i < |cfg.children| && RunObj(env, cfg, st, Child(i), tick, up).1.Ok?
    ensures var (r, o, e) := RunObj(env, cfg, st, Child(i), tick, up);
            var m: Params := if e.out.Ok? then e.out.value else map[];
            Write(st.vars, m) == (r.vars, Write(st.vars, m).1) && Write(st.vars, m).1.Ok?
  {
  }

  lemma {:induction false} RunChildCoherent(env: Env, cfg: Cfg, st: St, i: nat, tick: Tick, up: Params)
    requires Shape(cfg, st) && i < |cfg.children| && Ready(env, cfg, st, TypesOf(up))
    ensures Coherent(cfg, RunObj(env, cfg, st, Child(i), tick, up).0)
    decreases cfg, 1, 1
  {
    ChildTurn(env, cfg, st, i, tick, up);
    var (r, _, e) := RunObj(env, cfg, st, Child(i), tick, up);
    ReportRestoresWires(cfg, st, i, r.children[i], if e.out.Ok? then e.out.value else map[], r);
  }

  lemma ReadyFramed(env: Env, cfg: Cfg, a: St, b: St, upTypes: map<string, Ty>)
    requires Shape(cfg, a) && Shape(cfg, b) && Framed(cfg, a, b)
    requires Ready(env, cfg, a, upTypes) && Coherent(cfg, b)
    ensures Ready(env, cfg, b, upTypes)
  {
    SturdyFramed(env, cfg, a, b, upTypes);
  }

  lemma {:induction false} RunObjReady(env: Env, cfg: Cfg, st: St, ref: Ref, tick: Tick, up: Params)
    requires Shape(cfg, st) && ValidRef(cfg, ref) && Ready(env, cfg, st, TypesOf(up))
    ensures var (r, o, _) := RunObj(env, cfg, st, ref, tick, up); o.Ok? && Ready(env, cfg, r, TypesOf(up))
    decreases cfg, 1, 2
  {
    if ref.Sub? {
      RunSubCoherent(env, cfg, st, ref.j, tick, up);
      RunSubSound(env, cfg, st, ref.j, tick, up);
    } else {
      RunChildCoherent(env, cfg, st, ref.i, tick, up);
      RunChildSound(env, cfg, st, ref.i, tick, up);
    }
    RunObjFramed(env, cfg, st, ref, tick, up);
    ReadyFramed(env, cfg, st, RunObj(env, cfg, st, ref, tick, up).0, TypesOf(up));
  }

  lemma {:induction false} RunObjsReady(env: Env, cfg: Cfg, st: St, refs: seq<Ref>, tick: Tick, up: Params)
    requires Shape(cfg, st) && (forall r <- refs :: ValidRef(cfg, r)) && Ready(env, cfg, st, TypesOf(up))
    ensures var (r, o, _) := RunObjs(env, cfg, st, refs, tick, up); o.Ok? && Ready(env, cfg, r, TypesOf(up))
    decreases cfg, 2, |refs|
  {
    if refs != [] {
      assert ValidRef(cfg, refs[0]);
      RunObjReady(env, cfg, st, refs[0], tick, up);
      RunObjsReady(env, cfg, RunObj(env, cfg, st, refs[0], tick, up).0, refs[1..], tick, up);
    }
  }

  lemma BeginReady(env: Env, cfg: Cfg, st: St, up: Params)
    requires Shape(cfg, st) && Ready(env, cfg, st, TypesOf(up)) && WiresTyped(cfg.use, VarTypes(st.vars), TypesOf(up))
    ensures var (st1, o) := Begin(cfg, st, up); o.Ok? && Ready(env, cfg, st1, TypesOf(up))
  {
    WiredCopyUseOk(st.vars, SortedKeys(cfg.use.Keys), cfg.use, up);
    CopyUseFramed(st.vars, SortedKeys(cfg.use.Keys), cfg.use, up);
    CopyUseOutside(st.vars, SortedKeys(cfg.use.Keys), cfg.use, up);
    var st1 := Begin(cfg, st, up).0;
    OwnFramed(cfg, st, st1);
    OwnCoherent(cfg, st, st1, cfg.use.Keys);
    ReadyFramed(env, cfg, st, st1, TypesOf(up));
  }

  /** A step keeps every clean wire of the tree, whatever power edges and errors happen in it. */
  lemma {:induction false} CallCoherent(env: Env, cfg: Cfg, st: St, tick: Tick, up: Params)
    requires Shape(cfg, st) && Ready(env, cfg, st, TypesOf(up))
    requires WiresTyped(cfg.use, VarTypes(st.vars), TypesOf(up)) && cfg.ret.Values <= st.vars.Keys
    ensures var (r, o) := Call(env, cfg, st, tick, up);
            && o.Ok? && Ready(env, cfg, r, TypesOf(up))
            && o.value.Keys == cfg.ret.Keys
            && forall d <- cfg.ret :: cfg.ret[d] in r.vars && o.value[d] == r.vars[cfg.ret[d]].val
    decreases cfg, 3
  {
    hide WellWired, RespectsTypes, Coherent, Switch, RunObjs, Begin, Schedule;
    BeginReady(env, cfg, st, up);
    var st1 := Begin(cfg, st, up).0;
    ScheduleValid(cfg, st1, tick.time);
    RunObjsReady(env, cfg, st1, Schedule(cfg, st1, tick.time), tick, up);
    CallSound(env, cfg, st, tick, up);
  }

  // ----- fresh wires -----

  lemma RunObjSturdy(env: Env, cfg: Cfg, st: St, ref: Ref, tick: Tick, up: Params)
    requires Shape(cfg, st) && ValidRef(cfg, ref) && Sturdy(env, cfg, st, TypesOf(up))
    ensures var (r, o, _) := RunObj(env, cfg, st, ref, tick, up); o.Ok? && Sturdy(env, cfg, r, TypesOf(up))
  {
    hide RunObj, WellWired, RespectsTypes, Tidy;
    if ref.Sub? { RunSubSound(env, cfg, st, ref.j, tick, up); } else { RunChildSound(env, cfg, st, ref.i, tick, up); }
    RunObjFramed(env, cfg, st, ref, tick, up);
    SturdyFramed(env, cfg, st, RunObj(env, cfg, st, ref, tick, up).0, TypesOf(up));
  }

  /** All wires of child i into variables that are not locked hold, clean or not. */
  ghost predicate FeedsAll(cfg: Cfg, st: St, i: nat)
    requires Shape(cfg, st) && i < |cfg.children|
  {
    forall d | d in cfg.children[i].ret && !Locked(st.vars, d) :: WireHolds(cfg, st, i, d)
  }

  /** Objects dispatched after a child do not disturb what it feeds. */
  lemma {:induction false} LaterObjectsKeepFeed(env: Env, cfg: Cfg, st: St, refs: seq<Ref>, tick: Tick, up: Params,
                                                i: nat)
    requires Shape(cfg, st) && (forall r <- refs :: ValidRef(cfg, r)) && Sturdy(env, cfg, st, TypesOf(up))
    requires i < |cfg.children| && Child(i) !in refs && FeedsAll(cfg, st, i)
    ensures FeedsAll(cfg, RunObjs(env, cfg, st, refs, tick, up).0, i)
    decreases |refs|
  {
    hide RunObj, Sturdy, FeedsAll;
    if refs != [] {
      assert ValidRef(cfg, refs[0]);
      RunObjSturdy(env, cfg, st, refs[0], tick, up);
      ObjectKeepsFeed(env, cfg, st, refs[0], tick, up, i);
      LaterObjectsKeepFeed(env, cfg, RunObj(env, cfg, st, refs[0], tick, up).0, refs[1..], tick, up, i);
    }
  }

  lemma ObjectKeepsFeed(env: Env, cfg: Cfg, st: St, ref: Ref, tick: Tick, up: Params, i: nat)
    requires Shape(cfg, st) && ValidRef(cfg, ref) && Sturdy(env, cfg, st, TypesOf(up))
    requires i < |cfg.children| && ref != Child(i) && FeedsAll(cfg, st, i)
    ensures FeedsAll(cfg, RunObj(env, cfg, st, ref, tick, up).0, i)
  {
    hide WellWired, RespectsTypes, RunObj;
    var (r, o, e) := RunObj(env, cfg, st, ref, tick, up);
    RunObjLocal(env, cfg, st, ref, tick, up);
    var m: Params := if e.out.Ok? then e.out.value else map[];
    ReportedNames(env, cfg, st, ref, tick, up);
    WriteOutside(st.vars, m);
    forall d | d in cfg.children[i].ret && !Locked(r.vars, d) ensures WireHolds(cfg, r, i, d) {
      assert d in cfg.children[i].ret.Keys;
      if ref.Child? {
        assert cfg.children[ref.i].ret.Keys !! cfg.children[i].ret.Keys;
      } else {
        assert !NotFed(cfg, d);
      }
      assert d !in m;
      assert !Locked(st.vars, d) && WireHolds(cfg, st, i, d);
    }
  }

  /** What an object hands to the block: a child only variables it feeds, a subprogram none that
      anybody feeds; and it is written as it stands. */
  lemma ReportedNames(env: Env, cfg: Cfg, st: St, ref: Ref, tick: Tick, up: Params)
    requires Shape(cfg, st) && ValidRef(cfg, ref) && Sturdy(env, cfg, st, TypesOf(up))
    ensures var (r, o, e) := RunObj(env, cfg, st, ref, tick, up);
            var m: Params := if e.out.Ok? then e.out.value else map[];
            && Write(st.vars, m).0 == r.vars && Write(st.vars, m).1.Ok?
            && (ref.Child? ==> m.Keys <= cfg.children[ref.i].ret.Keys)
            && (ref.Sub? ==> forall k <- m :: NotFed(cfg, k))
  {
    hide RunObj, RespectsTypes, WellWired;
    RunObjSturdy(env, cfg, st, ref, tick, up);
    match ref
    case Child(i) => ReportedByChild(env, cfg, st, i, tick, up);
    case Sub(j) => ReportedBySub(env, cfg, st, j, tick, up);
  }

  lemma ReportedByChild(env: Env, cfg: Cfg, st: St, i: nat, tick: Tick, up: Params)
    requires Shape(cfg, st) && i < |cfg.children| && WellWired(cfg, st) && RespectsTypes(env, cfg, st, TypesOf(up))
    requires RunObj(env, cfg, st, Child(i), tick, up).1.Ok?
    ensures var (r, o, e) := RunObj(env, cfg, st, Child(i), tick, up);
            var m: Params := if e.out.Ok? then e.out.value else map[];
            Write(st.vars, m).0 == r.vars && Write(st.vars, m).1.Ok? && m.Keys <= cfg.children[i].ret.Keys
  {
    hide GuardChild, Write;
    var vals := Vals(st.vars);
    assert TypesOf(vals) == VarTypes(st.vars);
    GuardChildSound(env, cfg.children[i], st.children[i], vals, tick);
    RunChildOutcome(env, cfg, st, i, tick, up);
    WriteBackOfChild(env, cfg, st, i, tick, up);
  }

  lemma ReportedBySub(env: Env, cfg: Cfg, st: St, j: nat, tick: Tick, up: Params)
    requires Shape(cfg, st) && j < |cfg.subs| && Tidy(env, cfg) && RunObj(env, cfg, st, Sub(j), tick, up).1.Ok?
    ensures var (r, o, e) := RunObj(env, cfg, st, Sub(j), tick, up);
            var m: Params := if e.out.Ok? then e.out.value else map[];
            Write(st.vars, m).0 == r.vars && Write(st.vars, m).1.Ok? && forall k <- m :: NotFed(cfg, k)
  {
    hide Write, NotFed;
    assert SubAvoidsFed(env, cfg, cfg.subs[j]);
    var vals := Vals(st.vars);
    var (s, b, o) := GuardSub(env, cfg.subs[j], st.subs[j], vals, tick, up);
    if b == Called && o.Ok? {
      assert o == CallFn(env, cfg.subs[j], tick.time, PreCallSub(cfg.subs[j], st.subs[j], tick.now).delta, vals, up);
    }
  }

  /** A child that was called in a step ends it with every parent variable it feeds, clean wire or
      not, equal to its own source variable. */
  lemma {:induction false} CalledChildFeedsAll(env: Env, cfg: Cfg, st: St, refs: seq<Ref>, tick: Tick, up: Params,
                                               n: nat, i: nat)
    requires Shape(cfg, st) && (forall r <- refs :: ValidRef(cfg, r)) && NoDuplicates(refs)
    requires Sturdy(env, cfg, st, TypesOf(up))
    requires var log := RunObjs(env, cfg, st, refs, tick, up).2;
             n < |log| && log[n].ref == Child(i) && log[n].branch == Called
    ensures i < |cfg.children| && FeedsAll(cfg, RunObjs(env, cfg, st, refs, tick, up).0, i)
    decreases |refs|
  {
    hide RunObj, Sturdy, FeedsAll;
    LogFollowsRefs(env, cfg, st, refs, tick, up);
    assert ValidRef(cfg, refs[0]);
    RunObjSturdy(env, cfg, st, refs[0], tick, up);
    var st1 := RunObj(env, cfg, st, refs[0], tick, up).0;
    if n == 0 {
      CalledChildFeeds(env, cfg, st, i, tick, up);
      assert Child(i) !in refs[1..];
      LaterObjectsKeepFeed(env, cfg, st1, refs[1..], tick, up, i);
    } else {
      CalledChildFeedsAll(env, cfg, st1, refs[1..], tick, up, n - 1, i);
    }
  }

  lemma CalledChildFeeds(env: Env, cfg: Cfg, st: St, i: nat, tick: Tick, up: Params)
    requires Shape(cfg, st) && i < |cfg.children| && Sturdy(env, cfg, st, TypesOf(up))
    requires RunObj(env, cfg, st, Child(i), tick, up).2.branch == Called
    ensures FeedsAll(cfg, RunObj(env, cfg, st, Child(i), tick, up).0, i)
  {
    hide RunObj, WellWired, RespectsTypes;
    var vals, cc, c := Vals(st.vars), cfg.children[i], st.children[i];
    var (r, w, e) := RunObj(env, cfg, st, Child(i), tick, up);
    RunObjSturdy(env, cfg, st, Child(i), tick, up);
    RunChildOutcome(env, cfg, st, i, tick, up);
    ReportedNames(env, cfg, st, Child(i), tick, up);
    CalledReturnsCurrent(env, cfg, st, i, tick, up);
    var m := e.out.value;
    WriteImage(st.vars, SortedKeys(m.Keys), m, {});
    FedArePresent(cfg, st, i);
    forall d | d in cc.ret && !Locked(r.vars, d) ensures WireHolds(cfg, r, i, d) {
      assert d in st.vars && d in m;
    }
  }

  lemma FedArePresent(cfg: Cfg, st: St, i: nat)
    requires Shape(cfg, st) && i < |cfg.children| && WellWired(cfg, st)
    ensures forall d | d in cfg.children[i].ret :: d in st.vars && cfg.children[i].ret[d] in st.children[i].vars
  {
    RetPresent(cfg.children[i], VarTypes(st.vars), VarTypes(st.children[i].vars));
  }

  /** A called child hands up the present value of every variable it feeds. */
  lemma CalledReturnsCurrent(env: Env, cfg: Cfg, st: St, i: nat, tick: Tick, up: Params)
    requires Shape(cfg, st) && i < |cfg.children| && WellWired(cfg, st) && RespectsTypes(env, cfg, st, TypesOf(up))
    requires GuardChild(env, cfg.children[i], st.children[i], Vals(st.vars), tick).1 == Called
    ensures var cc := cfg.children[i];
            var (c1, _, o) := GuardChild(env, cc, st.children[i], Vals(st.vars), tick);
            && o.Ok? && o.value.Keys == cc.ret.Keys
            && forall d <- cc.ret :: cc.ret[d] in c1.vars && o.value[d] == c1.vars[cc.ret[d]].val
  {
    hide CallLog;
    var vals, cc, c := Vals(st.vars), cfg.children[i], st.children[i];
    assert TypesOf(vals) == VarTypes(st.vars);
    var c0 := PreCall(cc, c, tick.now);
    OwnFramed(cc, c, c0);
    WellWiredFramed(cc, c, c0);
    RespectsTypesFramed(env, cc, c, c0, TypesOf(vals));
    FedArePresent(cfg, st, i);
    forall d | d in cc.ret ensures cc.ret[d] in c0.vars {}
    CallSound(env, cc, c0, tick, vals);
    CallReturnsCurrent(env, cc, c0, tick, vals);
  }

  lemma CallReturnsCurrent(env: Env, cc: Cfg, c: St, tick: Tick, up: Params)
    requires Shape(cc, c) && Call(env, cc, c, tick, up).1.Ok?
    ensures var (r, o) := Call(env, cc, c, tick, up);
            && o.value.Keys == cc.ret.Keys
            && forall d <- cc.ret :: cc.ret[d] in r.vars && o.value[d] == r.vars[cc.ret[d]].val
  {
    hide CallLog;
    forall d | d in cc.ret ensures cc.ret[d] in cc.ret.Values {}
  }

  lemma BeginSturdy(env: Env, cfg: Cfg, st: St, up: Params)
    requires Shape(cfg, st) && Sturdy(env, cfg, st, TypesOf(up)) && WiresTyped(cfg.use, VarTypes(st.vars), TypesOf(up))
    ensures var (st1, o) := Begin(cfg, st, up); o.Ok? && Sturdy(env, cfg, st1, TypesOf(up))
  {
    hide Sturdy;
    WiredCopyUseOk(st.vars, SortedKeys(cfg.use.Keys), cfg.use, up);
    CopyUseFramed(st.vars, SortedKeys(cfg.use.Keys), cfg.use, up);
    var st1 := Begin(cfg, st, up).0;
    OwnFramed(cfg, st, st1);
    SturdyFramed(env, cfg, st, st1, TypesOf(up));
  }

  /** At the end of a step, every variable fed by a child that was called in it equals its source, whether
      the wire held before or not. */
  lemma CalledChildFeedsAtEnd(env: Env, cfg: Cfg, st: St, tick: Tick, up: Params, n: nat, i: nat)
    requires Shape(cfg, st) && Sturdy(env, cfg, st, TypesOf(up)) && WiresTyped(cfg.use, VarTypes(st.vars), TypesOf(up))
    requires var log := CallLog(env, cfg, st, tick, up).2;
             n < |log| && log[n].ref == Child(i) && log[n].branch == Called
    ensures i < |cfg.children| && FeedsAll(cfg, CallLog(env, cfg, st, tick, up).0, i)
  {
    hide Sturdy, FeedsAll, RunObjs;
    BeginSturdy(env, cfg, st, up);
    var st1 := Begin(cfg, st, up).0;
    ScheduleIsStableSort(cfg, st1, tick.time);
    CalledChildFeedsAll(env, cfg, st1, Schedule(cfg, st1, tick.time), tick, up, n, i);
  }
}
