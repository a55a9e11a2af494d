/** Where well-wiredness and wire coherence stop: what a mistyped wire does to a step, and exactly when a
    wire still holds after a power edge or a USE copy. */
module WiringLimits {
  import opened Common
  import opened StringOrder
  import opened Values
  import opened Engine
  import opened StepLog
  import opened Frame
  import opened Power
  import opened Soundness
  import opened Wires

  // ----- mistyped wires -----

  /** Every present unlocked variable is offered a value of its type. */
  predicate Fits(vars: Vars, val: Params) {
    forall k {:trigger val[k]} | k in val :: k in vars && !vars[k].locked ==> TypeOf(val[k]) == TypeOf(vars[k].val)
  }

  lemma {:induction false} WriteFromOkIff(vars: Vars, keys: seq<string>, val: Params, done: set<string>)
    requires forall k <- keys :: k in val
    ensures WriteFrom(vars, keys, val, done).1.Throw? ==> WriteFrom(vars, keys, val, done).1.exn == BadCast
    ensures WriteFrom(vars, keys, val, done).1.Ok? <==>
            forall k <- keys :: k in vars && !vars[k].locked ==> TypeOf(val[k]) == TypeOf(vars[k].val)
    decreases keys
  {
    if keys != [] {
      var k, rest := keys[0], keys[1..];
      assert keys == [k] + rest;
      if k in vars && !vars[k].locked {
        var c := CopyData(vars[k].val, val[k]);
        if c.Ok? { WriteFromOkIff(vars[k := vars[k].(val := c.value.0)], rest, val, done + {k}); }
      } else {
        WriteFromOkIff(vars, rest, val, done);
      }
    }
  }

  /** write_variables succeeds exactly on values of the right types; otherwise a bad_cast flies. */
  lemma WriteOkIff(vars: Vars, val: Params)
    ensures Write(vars, val).1.Ok? <==> Fits(vars, val)
    ensures Write(vars, val).1.Throw? ==> Write(vars, val).1.exn == BadCast
  {
    WriteFromOkIff(vars, SortedKeys(val.Keys), val, {});
    forall k | k in val ensures k in SortedKeys(val.Keys) {}
  }

  /** The turn of a child whose guarded region returned m ends the whole step with a bad_cast exactly
      when m does not fit the variables of the block. */
  lemma ReturnEscapesIff(env: Env, cfg: Cfg, st: St, i: nat, tick: Tick, up: Params)
    requires Shape(cfg, st) && i < |cfg.children|
    requires GuardChild(env, cfg.children[i], st.children[i], Vals(st.vars), tick).2.Ok?
    ensures var m := GuardChild(env, cfg.children[i], st.children[i], Vals(st.vars), tick).2.value;
            RunObj(env, cfg, st, Child(i), tick, up).1 == (if Fits(st.vars, m) then Ok(()) else Throw(BadCast))
  {
    var m := GuardChild(env, cfg.children[i], st.children[i], Vals(st.vars), tick).2.value;
    WriteOkIff(st.vars, m);
  }

  /** A wire into an unlocked variable of another type. */
  predicate Mistyped(cc: Cfg, c: St, vars: Vars, d: string) {
    && d in cc.ret && cc.ret[d] in c.vars && d in vars && !vars[d].locked
    && TypeOf(vars[d].val) != TypeOf(c.vars[cc.ret[d]].val)
  }

  /** A called child with a mistyped wire takes the step of its parent down. */
  lemma MistypedWireEscapes(env: Env, cfg: Cfg, st: St, i: nat, d: string, tick: Tick, up: Params)
    requires Shape(cfg, st) && i < |cfg.children| && Mistyped(cfg.children[i], st.children[i], st.vars, d)
    requires var g := GuardChild(env, cfg.children[i], st.children[i], Vals(st.vars), tick); g.1 == Called && g.2.Ok?
    ensures RunObj(env, cfg, st, Child(i), tick, up).1 == Throw(BadCast)
  {
    var cc, c, vals := cfg.children[i], st.children[i], Vals(st.vars);
    CalledReturnKeepsType(env, cc, c, vals, tick, d);
    var m := GuardChild(env, cc, c, vals, tick).2.value;
    assert d in m && TypeOf(m[d]) != TypeOf(st.vars[d].val);
    ReturnEscapesIff(env, cfg, st, i, tick, up);
  }

  lemma CalledReturnKeepsType(env: Env, cc: Cfg, c: St, vals: Params, tick: Tick, d: string)
    requires Shape(cc, c) && d in cc.ret && cc.ret[d] in c.vars
    requires var g := GuardChild(env, cc, c, vals, tick); g.1 == Called && g.2.Ok?
    ensures var m := GuardChild(env, cc, c, vals, tick).2.value;
            d in m && TypeOf(m[d]) == TypeOf(c.vars[cc.ret[d]].val)
  {
    var c0 := PreCall(cc, c, tick.now);
    OwnFramed(cc, c, c0);
    CallFramed(env, cc, c0, tick, vals);
    CalledIsCall(env, cc, c, vals, tick);
  }

  lemma CalledIsCall(env: Env, cc: Cfg, c: St, vals: Params, tick: Tick)
    requires Shape(cc, c) && GuardChild(env, cc, c, vals, tick).1 == Called
    ensures GuardChild(env, cc, c, vals, tick).2 == Call(env, cc, PreCall(cc, c, tick.now), tick, vals).1
  {
  }

  // ----- edge values and USE copies over fed variables -----

  /** The value of variable v once children k and later have gone off, if it was x before: a child hands
      up what it has just written, which are its own power-off values. */
  function FedOff(cfg: Cfg, st: St, v: string, x: Value, k: nat): Value
    requires Shape(cfg, st) && k <= |cfg.children|
    decreases |cfg.children| - k
  {
    if k == |cfg.children| then x
    else
      var cc, c := cfg.children[k], st.children[k];
      var y := if v in cc.ret && OffWritten(cc, c, cc.ret[v]) then cc.off[cc.ret[v]] else x;
      FedOff(cfg, st, v, y, k + 1)
  }

  predicate OffWritten(cfg: Cfg, st: St, v: string) {
    v in cfg.off && v in st.vars && !st.vars[v].locked
  }

  /** The value of variable v after a falling edge, read off the state before it. */
  function OffValue(cfg: Cfg, st: St, v: string): Value
    requires Shape(cfg, st) && v in st.vars
  {
    if st.vars[v].locked then st.vars[v].val
    else if v in cfg.off then cfg.off[v]
    else FedOff(cfg, st, v, st.vars[v].val, 0)
  }

  /** What a block hands up when it goes off. */
  lemma OffEdgeReturns(cfg: Cfg, st: St)
    requires Shape(cfg, st) && WriteEdge(cfg, st, cfg.off).1.Ok?
    ensures WriteEdge(cfg, st, cfg.off).1.value ==
            map d | d in cfg.ret && OffWritten(cfg, st, cfg.ret[d]) :: cfg.off[cfg.ret[d]]
    ensures WriteEdge(cfg, st, cfg.off).0.vars.Keys == st.vars.Keys
    ensures forall v | v in st.vars :: WriteEdge(cfg, st, cfg.off).0.vars[v] ==
              if OffWritten(cfg, st, v) then st.vars[v].(val := cfg.off[v]) else st.vars[v]
  {
    WriteImage(st.vars, SortedKeys(cfg.off.Keys), cfg.off, {});
  }

  /** What its children did before does not show in what it hands up. */
  lemma {:induction false} PowerOffReturns(cfg: Cfg, st: St, k: nat)
    requires Shape(cfg, st) && k <= |cfg.children| && PowerOffFrom(cfg, st, k).1.Ok?
    ensures PowerOffFrom(cfg, st, k).1.value ==
            map d | d in cfg.ret && OffWritten(cfg, st, cfg.ret[d]) :: cfg.off[cfg.ret[d]]
    decreases cfg, 1, |cfg.children| - k
  {
    hide WriteFrom;
    if k == |cfg.children| {
      OffEdgeReturns(cfg, st);
    } else {
      var st1 := PowerOffChild(cfg, st, k).0;
      PowerOffReturns(cfg, st1, k + 1);
      PowerOffChildWrites(cfg, st, k);
      assert forall v :: OffWritten(cfg, st1, v) <==> OffWritten(cfg, st, v);
    }
  }

  /** One turn of the loop over the children: the values they feed, and nobody else. */
  lemma {:induction false} PowerOffChildWrites(cfg: Cfg, st: St, k: nat)
    requires Shape(cfg, st) && k < |cfg.children| && PowerOffChild(cfg, st, k).1.Ok?
    ensures var st1, cc, c := PowerOffChild(cfg, st, k).0, cfg.children[k], st.children[k];
            && st1.children == st.children[k := PowerOff(cc, c).0] && st1.vars.Keys == st.vars.Keys
            && forall v | v in st.vars :: st1.vars[v] ==
                 if !st.vars[v].locked && v in cc.ret && OffWritten(cc, c, cc.ret[v])
                 then st.vars[v].(val := cc.off[cc.ret[v]]) else st.vars[v]
    decreases cfg, 0
  {
    hide PowerOffFrom;
    var cc, c := cfg.children[k], st.children[k];
    assert PowerOff(cc, c).1.Ok?;
    PowerOffReturns(cc, c, 0);
    var m := PowerOff(cc, c).1.value;
    WriteImage(st.vars, SortedKeys(m.Keys), m, {});
  }

  /** The whole of power_off_children on the variables of a block and on its children. */
  lemma {:induction false} PowerOffImage(cfg: Cfg, st: St, k: nat, v: string)
    requires Shape(cfg, st) && k <= |cfg.children| && PowerOffFrom(cfg, st, k).1.Ok? && v in st.vars
    ensures var r := PowerOffFrom(cfg, st, k).0;
            && r.vars.Keys == st.vars.Keys
            && r.vars[v].val == (if st.vars[v].locked then st.vars[v].val
                                 else if v in cfg.off then cfg.off[v]
                                 else FedOff(cfg, st, v, st.vars[v].val, k))
            && forall i | 0 <= i < |cfg.children| ::
                 r.children[i] == if i < k then st.children[i] else PowerOff(cfg.children[i], st.children[i]).0
    decreases |cfg.children| - k
  {
    if k == |cfg.children| {
      OffEdgeReturns(cfg, st);
    } else {
      PowerOffChildWrites(cfg, st, k);
      var st1 := PowerOffChild(cfg, st, k).0;
      PowerOffImage(cfg, st1, k + 1, v);
      FedOffOfRest(cfg, st, st1, v, st1.vars[v].val, k + 1);
    }
  }

  lemma {:induction false} FedOffOfRest(cfg: Cfg, a: St, b: St, v: string, x: Value, k: nat)
    requires Shape(cfg, a) && Shape(cfg, b) && k <= |cfg.children|
    requires forall i | k <= i < |cfg.children| :: a.children[i] == b.children[i]
    ensures FedOff(cfg, a, v, x, k) == FedOff(cfg, b, v, x, k)
    decreases |cfg.children| - k
  {
    if k < |cfg.children| {
      var cc, c := cfg.children[k], a.children[k];
      FedOffOfRest(cfg, a, b, v, if v in cc.ret && OffWritten(cc, c, cc.ret[v]) then cc.off[cc.ret[v]] else x, k + 1);
    }
  }

  /** After a falling edge a wire holds if and only if its two ends settle on one value. */
  lemma FallingEdgeIff(cfg: Cfg, st: St, i: nat, d: string)
    requires Shape(cfg, st) && i < |cfg.children| && d in cfg.children[i].ret
    requires d in st.vars && cfg.children[i].ret[d] in st.children[i].vars && PowerOff(cfg, st).1.Ok?
    ensures WireHolds(cfg, PowerOff(cfg, st).0, i, d) <==>
            OffValue(cfg, st, d) == OffValue(cfg.children[i], st.children[i], cfg.children[i].ret[d])
  {
    hide PowerOffFrom, FedOff;
    PowerOffImage(cfg, st, 0, d);
    PowerOffSucceedsBelow(cfg, st, 0, i);
    PowerOffImage(cfg.children[i], st.children[i], 0, cfg.children[i].ret[d]);
    var r := PowerOff(cfg, st).0;
    assert d in r.vars && r.vars[d].val == OffValue(cfg, st, d);
    assert r.children[i] == PowerOff(cfg.children[i], st.children[i]).0;
    var s := cfg.children[i].ret[d];
    assert s in r.children[i].vars;
    assert r.children[i].vars[s].val == OffValue(cfg.children[i], st.children[i], s);
  }

  lemma {:induction false} PowerOffSucceedsBelow(cfg: Cfg, st: St, k: nat, i: nat)
    requires Shape(cfg, st) && k <= i < |cfg.children| && PowerOffFrom(cfg, st, k).1.Ok?
    ensures PowerOff(cfg.children[i], st.children[i]).1.Ok?
    decreases |cfg.children| - k
  {
    if k < i {
      PowerOffChildWrites(cfg, st, k);
      PowerOffSucceedsBelow(cfg, PowerOffChild(cfg, st, k).0, k + 1, i);
    }
  }

  lemma {:induction false} UnfedOff(cfg: Cfg, st: St, v: string, x: Value, k: nat)
    requires Shape(cfg, st) && k <= |cfg.children| && NotFed(cfg, v)
    ensures FedOff(cfg, st, v, x, k) == x
    decreases |cfg.children| - k
  {
    if k < |cfg.children| { UnfedOff(cfg, st, v, x, k + 1); }
  }

  /** In particular a fed variable that the block lists among its own power-off values: the wire holds
      after the edge if and only if its source ends with that value. */
  lemma EdgeOverridesWire(cfg: Cfg, st: St, i: nat, d: string)
    requires Shape(cfg, st) && i < |cfg.children| && d in cfg.children[i].ret && d in cfg.off
    requires d in st.vars && !st.vars[d].locked && PowerOff(cfg, st).1.Ok?
    requires var s := cfg.children[i].ret[d]; s in st.children[i].vars && NotFed(cfg.children[i], s)
    ensures var cc, c := cfg.children[i], st.children[i];
            var s := cc.ret[d];
            WireHolds(cfg, PowerOff(cfg, st).0, i, d) <==>
            (if s in cc.off && !c.vars[s].locked then cc.off[s] else c.vars[s].val) == cfg.off[d]
  {
    FallingEdgeIff(cfg, st, i, d);
    var cc, c := cfg.children[i], st.children[i];
    UnfedOff(cc, c, cc.ret[d], c.vars[cc.ret[d]].val, 0);
  }

  /** After a rising edge: the children have not moved, the block holds its power-on values. */
  lemma RisingEdgeIff(cfg: Cfg, st: St, i: nat, d: string, now: real)
    requires Shape(cfg, st) && i < |cfg.children| && d in cfg.children[i].ret
    requires d in st.vars && cfg.children[i].ret[d] in st.children[i].vars && WriteEdge(cfg, st, cfg.on).1.Ok?
    ensures WireHolds(cfg, Touch(cfg, WriteEdge(cfg, st, cfg.on).0, now), i, d) <==>
            (if d in cfg.on && !st.vars[d].locked then cfg.on[d] else st.vars[d].val)
            == st.children[i].vars[cfg.children[i].ret[d]].val
  {
    WriteImage(st.vars, SortedKeys(cfg.on.Keys), cfg.on, {});
    TouchKeepsVars(cfg, WriteEdge(cfg, st, cfg.on).0, now);
    TouchKeepsVars(cfg.children[i], st.children[i], now);
  }

  /** After the USE copy at the start of a step: the variable of the parent block has come in, whatever
      the lock says. */
  lemma UseCopyIff(cfg: Cfg, st: St, i: nat, d: string, up: Params)
    requires Shape(cfg, st) && i < |cfg.children| && d in cfg.children[i].ret
    requires d in st.vars && cfg.children[i].ret[d] in st.children[i].vars && Begin(cfg, st, up).1.Ok?
    ensures d in cfg.use ==> cfg.use[d] in up
    ensures WireHolds(cfg, Begin(cfg, st, up).0, i, d) <==>
            (if d in cfg.use then up[cfg.use[d]] else st.vars[d].val) == st.children[i].vars[cfg.children[i].ret[d]].val
  {
    UseIsCopied(cfg, st, up);
  }
}
