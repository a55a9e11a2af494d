/** Well-wired trees never go wrong: no step at any depth looks up a missing variable or meets a
    type mismatch, so nothing escapes the dispatch loop and the only errors ever recorded are those
    raised by user functions themselves and malformed power conditions. */
module Soundness {
  import opened Common
  import opened StringOrder
  import opened Values
  import opened Engine
  import opened Frame
  import Formula
  import Remap

  function VarTypes(vars: Vars): map<string, Ty> {
    map k | k in vars :: TypeOf(vars[k].val)
  }

  /** A wire table from names with types near to names with types far. */
  predicate WiresTyped(wires: map<string, string>, near: map<string, Ty>, far: map<string, Ty>) {
    forall d {:trigger wires[d]} | d in wires :: d in near && wires[d] in far && near[d] == far[wires[d]]
  }

  predicate CondBound(cond: seq<string>, types: map<string, Ty>) {
    forall t <- cond :: t in Formula.LogicOps() || t in types
  }

  predicate ValuesTyped(m: Params, types: map<string, Ty>) {
    forall k {:trigger m[k]} | k in m :: k in types && TypeOf(m[k]) == types[k]
  }

  /** Everything the loader checks, over the whole tree. */
  ghost predicate WellWired(cfg: Cfg, st: St)
    requires Shape(cfg, st)
    decreases cfg
  {
    var types := VarTypes(st.vars);
    && ValuesTyped(cfg.on, types) && ValuesTyped(cfg.off, types)
    && (forall j | 0 <= j < |cfg.subs| :: CondBound(cfg.subs[j].cond, types))
    && (forall i | 0 <= i < |cfg.children| ::
          && CondBound(cfg.children[i].cond, types)
          && WiresTyped(cfg.children[i].use, VarTypes(st.children[i].vars), types)
          && WiresTyped(cfg.children[i].ret, types, VarTypes(st.children[i].vars))
          && WellWired(cfg.children[i], st.children[i]))
  }

  /** A user function keeps to the types of the variables it returns, and fails only with its own
      exception. */
  predicate FnTyped(out: Outcome<Params>, types: map<string, Ty>) {
    match out
    case Ok(m) => forall k | k in m && k in types :: TypeOf(m[k]) == types[k]
    case Throw(e) => e.User?
  }

  ghost predicate SubTyped(env: Env, sc: SubCfg, types: map<string, Ty>, upTypes: map<string, Ty>) {
    forall t: real, d: real, v: Params, u: Params {:trigger CallFn(env, sc, t, d, v, u)} |
      TypesOf(v) == types && TypesOf(u) == upTypes :: FnTyped(CallFn(env, sc, t, d, v, u), types)
  }

  ghost predicate RespectsTypes(env: Env, cfg: Cfg, st: St, upTypes: map<string, Ty>)
    requires Shape(cfg, st)
    decreases cfg
  {
    && (forall j | 0 <= j < |cfg.subs| :: SubTyped(env, cfg.subs[j], VarTypes(st.vars), upTypes))
    && forall i | 0 <= i < |cfg.children| :: RespectsTypes(env, cfg.children[i], st.children[i], VarTypes(st.vars))
  }

  predicate Benign(e: Exn) {
    e.User? || e.InvalidArgs?
  }

  /** Every message queued anywhere in the tree is a benign one. */
  ghost predicate OnlyBenign(cfg: Cfg, st: St)
    requires Shape(cfg, st)
    decreases cfg
  {
    && (forall m <- st.errors :: Benign(m.exn))
    && forall i | 0 <= i < |cfg.children| :: OnlyBenign(cfg.children[i], st.children[i])
  }

  // ----- the conditions depend on types only -----

  /** Same variables with the same types at every depth. */
  ghost predicate SameTypes(cfg: Cfg, a: St, b: St)
    requires Shape(cfg, a) && Shape(cfg, b)
    decreases cfg
  {
    && VarTypes(a.vars) == VarTypes(b.vars)
    && forall i | 0 <= i < |cfg.children| :: SameTypes(cfg.children[i], a.children[i], b.children[i])
  }

  lemma {:induction false} FramedSameTypes(cfg: Cfg, a: St, b: St)
    requires Shape(cfg, a) && Shape(cfg, b) && Framed(cfg, a, b)
    ensures SameTypes(cfg, a, b)
    decreases cfg
  {
    forall i | 0 <= i < |cfg.children| ensures SameTypes(cfg.children[i], a.children[i], b.children[i]) {
      FramedSameTypes(cfg.children[i], a.children[i], b.children[i]);
    }
  }

  lemma {:induction false} WellWiredSameTypes(cfg: Cfg, a: St, b: St)
    requires Shape(cfg, a) && Shape(cfg, b) && SameTypes(cfg, a, b)
    requires WellWired(cfg, a)
    ensures WellWired(cfg, b)
    decreases cfg
  {
    forall i | 0 <= i < |cfg.children|
      ensures VarTypes(a.children[i].vars) == VarTypes(b.children[i].vars) && WellWired(cfg.children[i], b.children[i])
    {
      assert SameTypes(cfg.children[i], a.children[i], b.children[i]);
      WellWiredSameTypes(cfg.children[i], a.children[i], b.children[i]);
    }
  }

  lemma {:induction false} RespectsSameTypes(env: Env, cfg: Cfg, a: St, b: St, upTypes: map<string, Ty>)
    requires Shape(cfg, a) && Shape(cfg, b) && SameTypes(cfg, a, b)
    requires RespectsTypes(env, cfg, a, upTypes)
    ensures RespectsTypes(env, cfg, b, upTypes)
    decreases cfg
  {
    forall i | 0 <= i < |cfg.children| ensures RespectsTypes(env, cfg.children[i], b.children[i], VarTypes(b.vars)) {
      RespectsSameTypes(env, cfg.children[i], a.children[i], b.children[i], VarTypes(a.vars));
    }
  }

  lemma WellWiredFramed(cfg: Cfg, a: St, b: St)
    requires Shape(cfg, a) && Shape(cfg, b) && Framed(cfg, a, b)
    requires WellWired(cfg, a)
    ensures WellWired(cfg, b) && VarTypes(a.vars) == VarTypes(b.vars)
  {
    FramedSameTypes(cfg, a, b);
    WellWiredSameTypes(cfg, a, b);
  }

  lemma RespectsTypesFramed(env: Env, cfg: Cfg, a: St, b: St, upTypes: map<string, Ty>)
    requires Shape(cfg, a) && Shape(cfg, b) && Framed(cfg, a, b)
    requires RespectsTypes(env, cfg, a, upTypes)
    ensures RespectsTypes(env, cfg, b, upTypes)
  {
    FramedSameTypes(cfg, a, b);
    RespectsSameTypes(env, cfg, a, b, upTypes);
  }

  // ----- the primitive steps succeed -----

  lemma {:induction false} TypedWriteOk(vars: Vars, keys: seq<string>, val: Params, done: set<string>)
    requires forall k <- keys :: k in val
    requires forall k | k in val && k in vars :: TypeOf(val[k]) == TypeOf(vars[k].val)
    ensures WriteFrom(vars, keys, val, done).1.Ok?
    decreases keys
  {
    if keys != [] {
      var k := keys[0];
      if k in vars && !vars[k].locked {
        TypedWriteOk(vars[k := vars[k].(val := CopyData(vars[k].val, val[k]).value.0)], keys[1..], val, done + {k});
      } else {
        TypedWriteOk(vars, keys[1..], val, done);
      }
    }
  }

  lemma {:induction false} WiredCopyUseOk(vars: Vars, keys: seq<string>, use: map<string, string>, up: Params)
    requires forall k <- keys :: k in use
    requires WiresTyped(use, VarTypes(vars), TypesOf(up))
    ensures CopyUseFrom(vars, keys, use, up).1.Ok?
    decreases keys
  {
    if keys != [] {
      var k := keys[0];
      var _ := use[k];
      var vars1 := vars[k := vars[k].(val := CopyData(vars[k].val, up[use[k]]).value.0)];
      assert VarTypes(vars1) == VarTypes(vars);
      WiredCopyUseOk(vars1, keys[1..], use, up);
    }
  }

  lemma BoundCondFailsOnlyByShape(cond: seq<string>, vals: Params)
    requires CondBound(cond, TypesOf(vals))
    ensures Powered(cond, vals).Throw? ==> Powered(cond, vals).exn.InvalidArgs?
  {
    var m := map k | k in vals :: IsSet(vals[k]);
    Formula.NeverInvalidOp(Formula.LogicOps(), m, cond, 0, []);
  }

  /** What a child hands up carries the types of the variables it comes from. */
  predicate Returns(ret: map<string, string>, own: map<string, Ty>, m: Params) {
    forall d {:trigger m[d]} | d in m :: d in ret && ret[d] in own && TypeOf(m[d]) == own[ret[d]]
  }

  lemma WriteBackOk(cfg: Cfg, st: St, i: nat, o: Outcome<Params>)
    requires Shape(cfg, st) && i < |cfg.children| && WellWired(cfg, st)
    requires o.Ok? ==> Returns(cfg.children[i].ret, VarTypes(st.children[i].vars), o.value)
    ensures WriteBack(st, o).1.Ok?
  {
    var val := if o.Ok? then o.value else map[];
    forall k | k in val && k in st.vars ensures TypeOf(val[k]) == TypeOf(st.vars[k].val) {
      var _ := cfg.children[i].ret[k];
    }
    TypedWriteOk(st.vars, SortedKeys(val.Keys), val, {});
  }

  lemma WriteEdgeOk(cfg: Cfg, st: St, edge: Params)
    requires ValuesTyped(edge, VarTypes(st.vars))
    ensures var (r, o) := WriteEdge(cfg, st, edge);
            o.Ok? && Returns(cfg.ret, VarTypes(r.vars), o.value)
  {
    TypedWriteOk(st.vars, SortedKeys(edge.Keys), edge, {});
    WriteFromFramed(st.vars, SortedKeys(edge.Keys), edge, {}, {});
    var (r, o) := WriteEdge(cfg, st, edge);
    forall d | d in o.value ensures d in cfg.ret && cfg.ret[d] in r.vars &&
      TypeOf(o.value[d]) == TypeOf(r.vars[cfg.ret[d]].val) {
      var _ := edge[cfg.ret[d]];
    }
  }

  // ----- the whole step -----

  lemma {:induction false} PowerOffSound(cfg: Cfg, st: St, i: nat)
    requires Shape(cfg, st) && i <= |cfg.children| && WellWired(cfg, st)
    ensures var (r, o) := PowerOffFrom(cfg, st, i);
            o.Ok? && Returns(cfg.ret, VarTypes(r.vars), o.value) && (OnlyBenign(cfg, st) ==> OnlyBenign(cfg, r))
    decreases cfg, |cfg.children| - i
  {
    if i == |cfg.children| {
      WriteEdgeOk(cfg, st, cfg.off);
    } else {
      var (c, o) := PowerOff(cfg.children[i], st.children[i]);
      PowerOffSound(cfg.children[i], st.children[i], 0);
      PowerOffFramed(cfg.children[i], st.children[i], 0);
      ChildFramed(cfg, st, i, c);
      var st1 := st.(children := st.children[i := c]);
      WellWiredFramed(cfg, st, st1);
      WriteBackOk(cfg, st1, i, o);
      WriteBackFramed(cfg, st1, o);
      var st2 := WriteBack(st1, o).0;
      WellWiredFramed(cfg, st1, st2);
      PowerOffSound(cfg, st2, i + 1);
    }
  }

  lemma {:induction false} TouchBenign(cfg: Cfg, st: St, now: real)
    requires Shape(cfg, st)
    ensures OnlyBenign(cfg, st) ==> OnlyBenign(cfg, Touch(cfg, st, now))
    ensures Touch(cfg, st, now).vars == st.vars
    decreases cfg
  {
    forall i | 0 <= i < |cfg.children|
      ensures OnlyBenign(cfg.children[i], st.children[i]) ==>
              OnlyBenign(cfg.children[i], Touch(cfg, st, now).children[i])
    {
      TouchBenign(cfg.children[i], st.children[i], now);
    }
  }

  lemma {:induction false} SwitchSound(env: Env, cc: Cfg, c: St, pow: bool, vals: Params, tick: Tick)
    requires Shape(cc, c) && WellWired(cc, c)
    requires WiresTyped(cc.use, VarTypes(c.vars), TypesOf(vals)) && WiresTyped(cc.ret, TypesOf(vals), VarTypes(c.vars))
    requires RespectsTypes(env, cc, c, TypesOf(vals))
    ensures var (r, b, o) := Switch(env, cc, c, pow, vals, tick);
            o.Ok? && Returns(cc.ret, VarTypes(r.vars), o.value) && (OnlyBenign(cc, c) ==> OnlyBenign(cc, r))
    decreases cc, 4
  {
    if pow && c.power {
      var c0 := PreCall(cc, c, tick.now);
      OwnFramed(cc, c, c0);
      WellWiredFramed(cc, c, c0);
      RespectsTypesFramed(env, cc, c, c0, TypesOf(vals));
      forall d | d in cc.ret ensures cc.ret[d] in c0.vars {}
      CallSound(env, cc, c0, tick, vals);
    } else if pow {
      WriteEdgeOk(cc, c, cc.on);
      TouchBenign(cc, WriteEdge(cc, c, cc.on).0, tick.now);
    } else if c.power {
      PowerOffSound(cc, c, 0);
    }
  }

  /** Only the messages and the children matter. */
  lemma SameBenign(cfg: Cfg, a: St, b: St)
    requires Shape(cfg, a) && Shape(cfg, b)
    requires b.children == a.children && b.errors == a.errors
    ensures OnlyBenign(cfg, a) ==> OnlyBenign(cfg, b)
  {
  }

  lemma HandleBenign(cfg: Cfg, st: St, name: string, o: Outcome<Params>)
    requires Shape(cfg, st) && (o.Throw? ==> Benign(o.exn))
    ensures Shape(cfg, Handle(st, name, o)) && (OnlyBenign(cfg, st) ==> OnlyBenign(cfg, Handle(st, name, o)))
  {
  }

  lemma DrainBenign(cfg: Cfg, st: St, i: nat)
    requires Shape(cfg, st) && i < |cfg.children|
    ensures Shape(cfg, Drain(cfg, st, i)) && (OnlyBenign(cfg, st) ==> OnlyBenign(cfg, Drain(cfg, st, i)))
  {
    var c := st.children[i];
    SameBenign(cfg.children[i], c, c.(errBlocks := {}));
  }

  lemma GuardSubTyped(env: Env, sc: SubCfg, s: SubSt, vals: Params, tick: Tick, up: Params)
    requires CondBound(sc.cond, TypesOf(vals)) && SubTyped(env, sc, TypesOf(vals), TypesOf(up))
    ensures var (_, b, o) := GuardSub(env, sc, s, vals, tick, up);
            match o
            case Ok(m) => forall k | k in m && k in vals :: TypeOf(m[k]) == TypeOf(vals[k])
            case Throw(e) => Benign(e)
  {
    BoundCondFailsOnlyByShape(sc.cond, vals);
    var (_, b, o) := GuardSub(env, sc, s, vals, tick, up);
    if b == Called {
      assert FnTyped(CallFn(env, sc, tick.time, PreCallSub(sc, s, tick.now).delta, vals, up), TypesOf(vals));
    }
  }

  lemma RunSubSound(env: Env, cfg: Cfg, st: St, j: nat, tick: Tick, up: Params)
    requires Shape(cfg, st) && j < |cfg.subs| && WellWired(cfg, st)
    requires RespectsTypes(env, cfg, st, TypesOf(up))
    ensures var (r, o, e) := RunObj(env, cfg, st, Sub(j), tick, up);
            o.Ok? && (OnlyBenign(cfg, st) ==> OnlyBenign(cfg, r)) && (e.out.Throw? ==> Benign(e.out.exn))
  {
    hide OnlyBenign, WriteFrom;
    var vals := Vals(st.vars);
    assert TypesOf(vals) == VarTypes(st.vars);
    GuardSubTyped(env, cfg.subs[j], st.subs[j], vals, tick, up);
    var (s, b, o) := GuardSub(env, cfg.subs[j], st.subs[j], vals, tick, up);
    var val := if o.Ok? then o.value else map[];
    TypedWriteOk(st.vars, SortedKeys(val.Keys), val, {});
    var st0 := st.(subs := st.subs[j := s]);
    SameBenign(cfg, st, st0);
    HandleBenign(cfg, st0, cfg.subs[j].name, o);
    var st1 := Handle(st0, cfg.subs[j].name, o);
    SameBenign(cfg, st1, WriteBack(st1, o).0);
  }

  lemma {:induction false} GuardChildSound(env: Env, cc: Cfg, c: St, vals: Params, tick: Tick)
    requires Shape(cc, c) && WellWired(cc, c) && CondBound(cc.cond, TypesOf(vals))
    requires WiresTyped(cc.use, VarTypes(c.vars), TypesOf(vals)) && WiresTyped(cc.ret, TypesOf(vals), VarTypes(c.vars))
    requires RespectsTypes(env, cc, c, TypesOf(vals))
    ensures var (r, _, o) := GuardChild(env, cc, c, vals, tick);
            && Framed(cc, c, r) && (OnlyBenign(cc, c) ==> OnlyBenign(cc, r)) && (o.Throw? ==> Benign(o.exn))
            && (o.Ok? ==> Returns(cc.ret, VarTypes(r.vars), o.value))
    decreases cc, 5
  {
    hide WellWired, RespectsTypes, OnlyBenign, Switch, WiresTyped, CondBound, Returns;
    BoundCondFailsOnlyByShape(cc.cond, vals);
    var p := Powered(cc.cond, vals);
    FramedRefl(cc, c);
    if p.Ok? {
      SwitchSound(env, cc, c, p.value, vals, tick);
      SwitchFramed(env, cc, c, p.value, vals, tick);
    }
  }

  lemma ChildBenign(cfg: Cfg, st: St, i: nat, c: St)
    requires Shape(cfg, st) && i < |cfg.children| && Shape(cfg.children[i], c)
    requires OnlyBenign(cfg.children[i], st.children[i]) ==> OnlyBenign(cfg.children[i], c)
    ensures var b := st.(children := st.children[i := c]); Shape(cfg, b) && (OnlyBenign(cfg, st) ==> OnlyBenign(cfg, b))
  {
  }

  lemma {:induction false} RunChildSound(env: Env, cfg: Cfg, st: St, i: nat, tick: Tick, up: Params)
    requires Shape(cfg, st) && i < |cfg.children| && WellWired(cfg, st)
    requires RespectsTypes(env, cfg, st, TypesOf(up))
    ensures var (r, o, e) := RunObj(env, cfg, st, Child(i), tick, up);
            o.Ok? && (OnlyBenign(cfg, st) ==> OnlyBenign(cfg, r)) && (e.out.Throw? ==> Benign(e.out.exn))
    decreases cfg, 1
  {
    hide GuardChild, OnlyBenign, Framed, WiresTyped, CondBound, Returns;
    var vals, cc, c := Vals(st.vars), cfg.children[i], st.children[i];
    assert TypesOf(vals) == VarTypes(st.vars);
    GuardChildSound(env, cc, c, vals, tick);
    var (c1, b, o) := GuardChild(env, cc, c, vals, tick);
    var st1 := st.(children := st.children[i := c1]);
    ChildFramed(cfg, st, i, c1);
    ChildBenign(cfg, st, i, c1);
    FinishChildSound(cfg, st, st1, i, o);
  }

  lemma FinishChildSound(cfg: Cfg, st: St, st1: St, i: nat, o: Outcome<Params>)
    requires Shape(cfg, st) && Shape(cfg, st1) && i < |cfg.children| && Framed(cfg, st, st1)
    requires WellWired(cfg, st) && (OnlyBenign(cfg, st) ==> OnlyBenign(cfg, st1))
    requires o.Throw? ==> Benign(o.exn)
    requires o.Ok? ==> Returns(cfg.children[i].ret, VarTypes(st1.children[i].vars), o.value)
    ensures var (r, w) := WriteBack(Drain(cfg, Handle(st1, cfg.children[i].name, o), i), o);
            Shape(cfg, r) && w.Ok? && (OnlyBenign(cfg, st) ==> OnlyBenign(cfg, r))
  {
    var st2 := Handle(st1, cfg.children[i].name, o);
    HandleBenign(cfg, st1, cfg.children[i].name, o);
    OwnFramed(cfg, st1, st2);
    FramedTrans(cfg, st, st1, st2);
    DrainBenign(cfg, st2, i);
    DrainFramed(cfg, st2, i);
    var st3 := Drain(cfg, st2, i);
    FramedTrans(cfg, st, st2, st3);
    WellWiredFramed(cfg, st, st3);
    WriteBackOk(cfg, st3, i, o);
    SameBenign(cfg, st3, WriteBack(st3, o).0);
  }

  lemma {:induction false} RunObjsSound(env: Env, cfg: Cfg, st: St, refs: seq<Ref>, tick: Tick, up: Params)
    requires Shape(cfg, st) && (forall r <- refs :: ValidRef(cfg, r)) && WellWired(cfg, st)
    requires RespectsTypes(env, cfg, st, TypesOf(up))
    ensures var (r, o, log) := RunObjs(env, cfg, st, refs, tick, up);
            o.Ok? && (OnlyBenign(cfg, st) ==> OnlyBenign(cfg, r)) && forall e <- log :: e.out.Throw? ==>
              Benign(e.out.exn)
    decreases cfg, 2, |refs|
  {
    hide RunObj, WellWired, RespectsTypes, OnlyBenign;
    if refs != [] {
      assert ValidRef(cfg, refs[0]);
      if refs[0].Sub? { RunSubSound(env, cfg, st, refs[0].j, tick, up); }
      else { RunChildSound(env, cfg, st, refs[0].i, tick, up); }
      RunObjFramed(env, cfg, st, refs[0], tick, up);
      var (st1, o, _) := RunObj(env, cfg, st, refs[0], tick, up);
      WellWiredFramed(cfg, st, st1);
      RespectsTypesFramed(env, cfg, st, st1, TypesOf(up));
      RunObjsSound(env, cfg, st1, refs[1..], tick, up);
    }
  }

  /** The step of a well-wired block returns, with values of the promised types, and records nothing
      but benign errors in its whole subtree: if only benign ones were there before, so it is after. */
  lemma {:induction false} CallSound(env: Env, cfg: Cfg, st: St, tick: Tick, up: Params)
    requires Shape(cfg, st) && WellWired(cfg, st)
    requires WiresTyped(cfg.use, VarTypes(st.vars), TypesOf(up)) && cfg.ret.Values <= st.vars.Keys
    requires RespectsTypes(env, cfg, st, TypesOf(up))
    ensures var (r, o) := Call(env, cfg, st, tick, up);
            && o.Ok? && Returns(cfg.ret, VarTypes(r.vars), o.value)
            && (OnlyBenign(cfg, st) ==> OnlyBenign(cfg, r))
            && forall e <- CallLog(env, cfg, st, tick, up).2 :: e.out.Throw? ==> Benign(e.out.exn)
    decreases cfg, 3
  {
    hide RunObjs, WellWired, RespectsTypes, OnlyBenign, Schedule;
    WiredCopyUseOk(st.vars, SortedKeys(cfg.use.Keys), cfg.use, up);
    CopyUseFramed(st.vars, SortedKeys(cfg.use.Keys), cfg.use, up);
    var st1 := Begin(cfg, st, up).0;
    OwnFramed(cfg, st, st1);
    WellWiredFramed(cfg, st, st1);
    RespectsTypesFramed(env, cfg, st, st1, TypesOf(up));
    SameBenign(cfg, st, st1);
    ScheduleValid(cfg, st1, tick.time);
    RunObjsSound(env, cfg, st1, Schedule(cfg, st1, tick.time), tick, up);
    CallFramed(env, cfg, st, tick, up);
    var r := Call(env, cfg, st, tick, up).0;
    assert cfg.ret.Values <= r.vars.Keys;
    forall d | d in cfg.ret ensures cfg.ret[d] in cfg.ret.Values {}
  }
}
