/** What no step ever changes, at any depth and whatever exceptions fly: the set of variables,
    their types and locks, locked values outside the USE destinations, block and subprogram locks,
    and the error messages already queued. */
module Frame {
  import opened Common
  import opened StringOrder
  import opened Values
  import opened Engine

  /** Same variables, types and locks; locked values unchanged except for the names in free. */
  ghost predicate VarsFrame(a: Vars, b: Vars, free: set<string>) {
    && a.Keys == b.Keys
    && forall k | k in a ::
         && TypeOf(b[k].val) == TypeOf(a[k].val)
         && b[k].locked == a[k].locked
         && (a[k].locked && k !in free ==> b[k] == a[k])
  }

  ghost predicate Framed(cfg: Cfg, a: St, b: St)
    requires Shape(cfg, a) && Shape(cfg, b)
    decreases cfg
  {
    && VarsFrame(a.vars, b.vars, cfg.use.Keys)
    && a.blocked == b.blocked
    && a.errors <= b.errors
    && (forall i | 0 <= i < |cfg.children| :: Framed(cfg.children[i], a.children[i], b.children[i]))
    && (forall j | 0 <= j < |cfg.subs| :: a.subs[j].blocked == b.subs[j].blocked)
  }

  lemma {:induction false} FramedRefl(cfg: Cfg, a: St)
    requires Shape(cfg, a)
    ensures Framed(cfg, a, a)
    decreases cfg
  {
    forall i | 0 <= i < |cfg.children| ensures Framed(cfg.children[i], a.children[i], a.children[i]) {
      FramedRefl(cfg.children[i], a.children[i]);
    }
  }

  lemma {:induction false} FramedTrans(cfg: Cfg, a: St, b: St, c: St)
    requires Shape(cfg, a) && Shape(cfg, b) && Shape(cfg, c)
    requires Framed(cfg, a, b) && Framed(cfg, b, c)
    ensures Framed(cfg, a, c)
    decreases cfg
  {
    forall i | 0 <= i < |cfg.children| ensures Framed(cfg.children[i], a.children[i], c.children[i]) {
      FramedTrans(cfg.children[i], a.children[i], b.children[i], c.children[i]);
    }
  }

  /** A change of the block's own fields only. */
  lemma OwnFramed(cfg: Cfg, a: St, b: St)
    requires Shape(cfg, a) && b.children == a.children && b.subs == a.subs
    requires VarsFrame(a.vars, b.vars, cfg.use.Keys) && a.blocked == b.blocked && a.errors <= b.errors
    ensures Shape(cfg, b) && Framed(cfg, a, b)
  {
    FramedRefl(cfg, a);
  }

  /** A change inside one child only. */
  lemma ChildFramed(cfg: Cfg, a: St, i: nat, c: St)
    requires Shape(cfg, a) && i < |cfg.children| && Shape(cfg.children[i], c)
    requires Framed(cfg.children[i], a.children[i], c)
    ensures var b := a.(children := a.children[i := c]); Shape(cfg, b) && Framed(cfg, a, b)
  {
    FramedRefl(cfg, a);
  }

  lemma SubFramed(cfg: Cfg, a: St, j: nat, s: SubSt)
    requires Shape(cfg, a) && j < |cfg.subs| && s.blocked == a.subs[j].blocked
    ensures var b := a.(subs := a.subs[j := s]); Shape(cfg, b) && Framed(cfg, a, b)
  {
    FramedRefl(cfg, a);
  }

  // ----- variables -----

  lemma {:induction false} WriteFromFramed(vars: Vars, keys: seq<string>, val: Params, done: set<string>,
          free: set<string>)
    requires forall k <- keys :: k in val
    ensures VarsFrame(vars, WriteFrom(vars, keys, val, done).0, free)
    decreases keys
  {
    if keys != [] {
      var k := keys[0];
      if k in vars && !vars[k].locked && CopyData(vars[k].val, val[k]).Ok? {
        var vars1 := vars[k := vars[k].(val := CopyData(vars[k].val, val[k]).value.0)];
        WriteFromFramed(vars1, keys[1..], val, done + {k}, free);
      } else {
        WriteFromFramed(vars, keys[1..], val, done, free);
      }
    }
  }

  lemma {:induction false} CopyUseFramed(vars: Vars, keys: seq<string>, use: map<string, string>, up: Params)
    requires forall k <- keys :: k in use
    ensures VarsFrame(vars, CopyUseFrom(vars, keys, use, up).0, use.Keys)
    decreases keys
  {
    if keys != [] {
      var k := keys[0];
      if k in vars && use[k] in up && CopyData(vars[k].val, up[use[k]]).Ok? {
        var vars1 := vars[k := vars[k].(val := CopyData(vars[k].val, up[use[k]]).value.0)];
        CopyUseFramed(vars1, keys[1..], use, up);
      }
    }
  }

  /** A completed copy of the USE variables: each holds the value of its parent variable, locked or
      not, and no other variable has changed. */
  lemma {:induction false} CopyUseImage(vars: Vars, keys: seq<string>, use: map<string, string>, up: Params)
    requires forall k <- keys :: k in use
    requires CopyUseFrom(vars, keys, use, up).1.Ok?
    ensures var vs := CopyUseFrom(vars, keys, use, up).0;
            && vs.Keys == vars.Keys && (forall k <- keys :: k in vars && use[k] in up)
            && forall k | k in vars :: vs[k] == if k in keys then vars[k].(val := up[use[k]]) else vars[k]
    decreases keys
  {
    if keys != [] {
      var k, rest := keys[0], keys[1..];
      assert keys == [k] + rest;
      var vars1 := vars[k := vars[k].(val := CopyData(vars[k].val, up[use[k]]).value.0)];
      CopyUseImage(vars1, rest, use, up);
    }
  }

  lemma UseIsCopied(cfg: Cfg, st: St, up: Params)
    requires Shape(cfg, st) && Begin(cfg, st, up).1.Ok?
    ensures var vs := Begin(cfg, st, up).0.vars;
            && vs.Keys == st.vars.Keys && (forall k <- cfg.use :: k in vs && cfg.use[k] in up)
            && forall k | k in vs :: vs[k] == if k in cfg.use then st.vars[k].(val := up[cfg.use[k]]) else st.vars[k]
  {
    CopyUseImage(st.vars, SortedKeys(cfg.use.Keys), cfg.use, up);
    forall k | k in cfg.use ensures k in SortedKeys(cfg.use.Keys) {}
  }

  lemma WriteBackFramed(cfg: Cfg, st: St, o: Outcome<Params>)
    requires Shape(cfg, st)
    ensures Shape(cfg, WriteBack(st, o).0) && Framed(cfg, st, WriteBack(st, o).0)
  {
    var val := if o.Ok? then o.value else map[];
    WriteFromFramed(st.vars, SortedKeys(val.Keys), val, {}, cfg.use.Keys);
    OwnFramed(cfg, st, WriteBack(st, o).0);
  }

  lemma WriteEdgeFramed(cfg: Cfg, st: St, edge: Params)
    requires Shape(cfg, st)
    ensures Shape(cfg, WriteEdge(cfg, st, edge).0) && Framed(cfg, st, WriteEdge(cfg, st, edge).0)
  {
    WriteFromFramed(st.vars, SortedKeys(edge.Keys), edge, {}, cfg.use.Keys);
    OwnFramed(cfg, st, WriteEdge(cfg, st, edge).0);
  }

  // ----- the whole step -----

  lemma {:induction false} PowerOffFramed(cfg: Cfg, st: St, i: nat)
    requires Shape(cfg, st) && i <= |cfg.children|
    ensures Framed(cfg, st, PowerOffFrom(cfg, st, i).0)
    decreases cfg, |cfg.children| - i
  {
    if i == |cfg.children| {
      WriteEdgeFramed(cfg, st, cfg.off);
      var st1 := WriteEdge(cfg, st, cfg.off).0;
      OwnFramed(cfg, st, st1.(power := false));
    } else {
      var (c, o) := PowerOff(cfg.children[i], st.children[i]);
      PowerOffFramed(cfg.children[i], st.children[i], 0);
      ChildFramed(cfg, st, i, c);
      var st1 := st.(children := st.children[i := c]);
      WriteBackFramed(cfg, st1, o);
      var (st2, o2) := PowerOffChild(cfg, st, i);
      if o.Ok? { FramedTrans(cfg, st, st1, st2); }
      if o2.Ok? {
        PowerOffFramed(cfg, st2, i + 1);
        FramedTrans(cfg, st, st2, PowerOffFrom(cfg, st2, i + 1).0);
      }
    }
  }

  lemma {:induction false} TouchFramed(cfg: Cfg, st: St, now: real)
    requires Shape(cfg, st)
    ensures Framed(cfg, st, Touch(cfg, st, now))
    decreases cfg
  {
    forall i | 0 <= i < |cfg.children|
      ensures Framed(cfg.children[i], st.children[i], Touch(cfg, st, now).children[i]) {
      TouchFramed(cfg.children[i], st.children[i], now);
    }
  }

  lemma {:induction false} SwitchFramed(env: Env, cc: Cfg, c: St, pow: bool, vals: Params, tick: Tick)
    requires Shape(cc, c)
    ensures Framed(cc, c, Switch(env, cc, c, pow, vals, tick).0)
    decreases cc, 4
  {
    var r := Switch(env, cc, c, pow, vals, tick).0;
    if pow && c.power {
      var c0 := PreCall(cc, c, tick.now);
      OwnFramed(cc, c, c0);
      CallFramed(env, cc, c0, tick, vals);
      var c1 := Call(env, cc, c0, tick, vals).0;
      FramedTrans(cc, c, c0, c1);
      OwnFramed(cc, c1, r);
      FramedTrans(cc, c, c1, r);
    } else if pow {
      var (c1, o) := WriteEdge(cc, c, cc.on);
      WriteEdgeFramed(cc, c, cc.on);
      if o.Ok? {
        TouchFramed(cc, c1, tick.now);
        var c2 := Touch(cc, c1, tick.now);
        FramedTrans(cc, c, c1, c2);
        OwnFramed(cc, c2, r);
        FramedTrans(cc, c, c2, r);
      }
    } else if c.power {
      PowerOffFramed(cc, c, 0);
      var c1 := PowerOff(cc, c).0;
      OwnFramed(cc, c1, r);
      FramedTrans(cc, c, c1, r);
    } else {
      OwnFramed(cc, c, r);
    }
  }

  lemma RunSubFramed(env: Env, cfg: Cfg, st: St, j: nat, tick: Tick, up: Params)
    requires Shape(cfg, st) && j < |cfg.subs|
    ensures Framed(cfg, st, RunObj(env, cfg, st, Sub(j), tick, up).0)
  {
    var (s, b, o) := GuardSub(env, cfg.subs[j], st.subs[j], Vals(st.vars), tick, up);
    var st0 := st.(subs := st.subs[j := s]);
    SubFramed(cfg, st, j, s);
    var st1 := Handle(st0, cfg.subs[j].name, o);
    OwnFramed(cfg, st0, st1);
    FramedTrans(cfg, st, st0, st1);
    WriteBackFramed(cfg, st1, o);
    FramedTrans(cfg, st, st1, WriteBack(st1, o).0);
  }

  lemma {:induction false} RunObjFramed(env: Env, cfg: Cfg, st: St, ref: Ref, tick: Tick, up: Params)
    requires Shape(cfg, st) && ValidRef(cfg, ref)
    ensures Framed(cfg, st, RunObj(env, cfg, st, ref, tick, up).0)
    decreases cfg, 1
  {
    match ref
    case Sub(j) => RunSubFramed(env, cfg, st, j, tick, up);
    case Child(i) =>
      var p := Powered(cfg.children[i].cond, Vals(st.vars));
      FramedRefl(cfg.children[i], st.children[i]);
      if p.Ok? { SwitchFramed(env, cfg.children[i], st.children[i], p.value, Vals(st.vars), tick); }
      var (c, b, o) := GuardChild(env, cfg.children[i], st.children[i], Vals(st.vars), tick);
      ChildFramed(cfg, st, i, c);
      FinishChildFramed(cfg, st, st.(children := st.children[i := c]), i, o);
  }

  lemma FinishChildFramed(cfg: Cfg, st: St, st1: St, i: nat, o: Outcome<Params>)
    requires Shape(cfg, st) && Shape(cfg, st1) && i < |cfg.children| && Framed(cfg, st, st1)
    ensures var r := WriteBack(Drain(cfg, Handle(st1, cfg.children[i].name, o), i), o).0;
            Shape(cfg, r) && Framed(cfg, st, r)
  {
    var st2 := Handle(st1, cfg.children[i].name, o);
    OwnFramed(cfg, st1, st2);
    FramedTrans(cfg, st, st1, st2);
    DrainFramed(cfg, st2, i);
    var st3 := Drain(cfg, st2, i);
    FramedTrans(cfg, st, st2, st3);
    WriteBackFramed(cfg, st3, o);
    FramedTrans(cfg, st, st3, WriteBack(st3, o).0);
  }

  lemma DrainFramed(cfg: Cfg, st: St, i: nat)
    requires Shape(cfg, st) && i < |cfg.children|
    ensures Shape(cfg, Drain(cfg, st, i)) && Framed(cfg, st, Drain(cfg, st, i))
  {
    FramedRefl(cfg, st);
    var c := st.children[i];
    OwnFramed(cfg.children[i], c, c.(errBlocks := {}));
    ChildFramed(cfg, st, i, c.(errBlocks := {}));
    var st1 := st.(children := st.children[i := c.(errBlocks := {})]);
    OwnFramed(cfg, st1, Drain(cfg, st, i));
    FramedTrans(cfg, st, st1, Drain(cfg, st, i));
  }

  lemma {:induction false} RunObjsFramed(env: Env, cfg: Cfg, st: St, refs: seq<Ref>, tick: Tick, up: Params)
    requires Shape(cfg, st) && forall r <- refs :: ValidRef(cfg, r)
    ensures Framed(cfg, st, RunObjs(env, cfg, st, refs, tick, up).0)
    decreases cfg, 2, |refs|
  {
    FramedRefl(cfg, st);
    if refs != [] {
      RunObjFramed(env, cfg, st, refs[0], tick, up);
      var (st1, o, _) := RunObj(env, cfg, st, refs[0], tick, up);
      if o.Ok? {
        RunObjsFramed(env, cfg, st1, refs[1..], tick, up);
        FramedTrans(cfg, st, st1, RunObjs(env, cfg, st1, refs[1..], tick, up).0);
      }
    }
  }

  /** The frame of a whole recursive step, whether it returns or throws. */
  lemma {:induction false} CallFramed(env: Env, cfg: Cfg, st: St, tick: Tick, up: Params)
    requires Shape(cfg, st)
    ensures Framed(cfg, st, Call(env, cfg, st, tick, up).0)
    decreases cfg, 3
  {
    var (st1, o) := Begin(cfg, st, up);
    CopyUseFramed(st.vars, SortedKeys(cfg.use.Keys), cfg.use, up);
    OwnFramed(cfg, st, st1);
    if o.Ok? {
      ScheduleValid(cfg, st1, tick.time);
      var refs := Schedule(cfg, st1, tick.time);
      RunObjsFramed(env, cfg, st1, refs, tick, up);
      FramedTrans(cfg, st, st1, RunObjs(env, cfg, st1, refs, tick, up).0);
    }
  }
}
