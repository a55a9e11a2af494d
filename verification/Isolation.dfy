/** Error isolation over whole steps: a user function that fails with a caught exception has, at
    every depth and for everything but the error records, the effect of one that returns nothing. */
module Isolation {
  import opened Common
  import opened StringOrder
  import opened Values
  import opened Engine
  import Remap

  /** The function storage in which every caught failure is replaced by an empty result. */
  function Quiet(env: Env): Env {
    map f | f in env ::
      (t: real, d: real, v: Params, u: Params) =>
        var o := env[f](t, d, v, u); if o.Throw? && o.exn.Caught() then Ok(map[]) else o
  }

  /** Equal at every depth up to queued messages and error names. */
  ghost predicate Alike(cfg: Cfg, a: St, b: St)
    requires Shape(cfg, a) && Shape(cfg, b)
    decreases cfg
  {
    && a.vars == b.vars && a.plan == b.plan && a.last == b.last && a.delta == b.delta
    && a.blocked == b.blocked && a.power == b.power && a.subs == b.subs
    && forall i | 0 <= i < |cfg.children| :: Alike(cfg.children[i], a.children[i], b.children[i])
  }

  lemma AlikeChild(cfg: Cfg, a: St, b: St, i: nat, x: St, y: St)
    requires Shape(cfg, a) && Shape(cfg, b) && Alike(cfg, a, b) && i < |cfg.children|
    requires Shape(cfg.children[i], x) && Shape(cfg.children[i], y) && Alike(cfg.children[i], x, y)
    ensures var a1, b1 := a.(children := a.children[i := x]), b.(children := b.children[i := y]);
            Shape(cfg, a1) && Shape(cfg, b1) && Alike(cfg, a1, b1)
  {
  }

  /** Own fields of both sides change in the same way, error records in any way. */
  lemma AlikeOwn(cfg: Cfg, a: St, b: St, a1: St, b1: St)
    requires Shape(cfg, a) && Shape(cfg, b) && Alike(cfg, a, b)
    requires a1.children == a.children && b1.children == b.children
    requires a1.vars == b1.vars && a1.plan == b1.plan && a1.last == b1.last && a1.delta == b1.delta
    requires a1.blocked == b1.blocked && a1.power == b1.power && a1.subs == b1.subs && |a1.subs| == |cfg.subs|
    ensures Shape(cfg, a1) && Shape(cfg, b1) && Alike(cfg, a1, b1)
  {
  }

  lemma {:induction false} PowerOffAlike(cfg: Cfg, a: St, b: St, i: nat)
    requires Shape(cfg, a) && Shape(cfg, b) && Alike(cfg, a, b) && i <= |cfg.children|
    ensures var (x, o) := PowerOffFrom(cfg, a, i);
            var (y, p) := PowerOffFrom(cfg, b, i);
            o == p && Alike(cfg, x, y)
    decreases cfg, 1, |cfg.children| - i
  {
    if i == |cfg.children| {
      AlikeOwn(cfg, a, b, PowerOffFrom(cfg, a, i).0, PowerOffFrom(cfg, b, i).0);
    } else {
      PowerOffChildAlike(cfg, a, b, i);
      var (a1, o) := PowerOffChild(cfg, a, i);
      var (b1, _) := PowerOffChild(cfg, b, i);
      if o.Ok? { PowerOffAlike(cfg, a1, b1, i + 1); }
    }
  }

  lemma {:induction false} PowerOffChildAlike(cfg: Cfg, a: St, b: St, i: nat)
    requires Shape(cfg, a) && Shape(cfg, b) && Alike(cfg, a, b) && i < |cfg.children|
    ensures var (x, o) := PowerOffChild(cfg, a, i);
            var (y, p) := PowerOffChild(cfg, b, i);
            o == p && Alike(cfg, x, y)
    decreases cfg, 0
  {
    PowerOffAlike(cfg.children[i], a.children[i], b.children[i], 0);
    var (x, o) := PowerOff(cfg.children[i], a.children[i]);
    var (y, _) := PowerOff(cfg.children[i], b.children[i]);
    AlikeChild(cfg, a, b, i, x, y);
    var a1, b1 := a.(children := a.children[i := x]), b.(children := b.children[i := y]);
    AlikeOwn(cfg, a1, b1, WriteBack(a1, o).0, WriteBack(b1, o).0);
  }

  lemma {:induction false} TouchAlike(cfg: Cfg, a: St, b: St, now: real)
    requires Shape(cfg, a) && Shape(cfg, b) && Alike(cfg, a, b)
    ensures Alike(cfg, Touch(cfg, a, now), Touch(cfg, b, now))
    decreases cfg
  {
    forall i | 0 <= i < |cfg.children|
      ensures Alike(cfg.children[i], Touch(cfg, a, now).children[i], Touch(cfg, b, now).children[i])
    {
      TouchAlike(cfg.children[i], a.children[i], b.children[i], now);
    }
    assert Touch(cfg, a, now).subs == Touch(cfg, b, now).subs;
  }

  lemma {:induction false} SwitchAlike(env: Env, cc: Cfg, a: St, b: St, pow: bool, vals: Params, tick: Tick)
    requires Shape(cc, a) && Shape(cc, b) && Alike(cc, a, b)
    ensures var (x, c, o) := Switch(env, cc, a, pow, vals, tick);
            var (y, d, p) := Switch(Quiet(env), cc, b, pow, vals, tick);
            c == d && o == p && Alike(cc, x, y)
    decreases cc, 4
  {
    if pow && a.power {
      var a0, b0 := PreCall(cc, a, tick.now), PreCall(cc, b, tick.now);
      AlikeOwn(cc, a, b, a0, b0);
      CallAlike(env, cc, a0, b0, tick, vals);
      var (x, o) := Call(env, cc, a0, tick, vals);
      var (y, _) := Call(Quiet(env), cc, b0, tick, vals);
      AlikeOwn(cc, x, y, SetPower(x, o, pow), SetPower(y, o, pow));
    } else if pow {
      var (x, o) := WriteEdge(cc, a, cc.on);
      var (y, _) := WriteEdge(cc, b, cc.on);
      AlikeOwn(cc, a, b, x, y);
      TouchAlike(cc, x, y, tick.now);
      AlikeOwn(cc, Touch(cc, x, tick.now), Touch(cc, y, tick.now),
               Touch(cc, x, tick.now).(power := pow), Touch(cc, y, tick.now).(power := pow));
    } else if a.power {
      PowerOffAlike(cc, a, b, 0);
      var (x, o) := PowerOff(cc, a);
      var (y, _) := PowerOff(cc, b);
      AlikeOwn(cc, x, y, SetPower(x, o, pow), SetPower(y, o, pow));
    }
  }

  lemma GuardSubAlike(env: Env, sc: SubCfg, s: SubSt, vals: Params, tick: Tick, up: Params)
    ensures var (x, c, o) := GuardSub(env, sc, s, vals, tick, up);
            var (y, d, p) := GuardSub(Quiet(env), sc, s, vals, tick, up);
            && x == y && c == d
            && (if o.Throw? && o.exn.Caught() then p == o || p == Ok(map[]) else p == o)
  {
    var none: Params := map[];
    RenameNothing(SortedKeys(sc.remap.Keys), sc.remap);
  }

  lemma {:induction false} RenameNothing(keys: seq<string>, remap: map<string, string>)
    requires forall k <- keys :: k in remap
    ensures Remap.RenameFrom<string, Value>(map[], keys, remap) == map[]
    decreases keys
  {
    if keys != [] { RenameNothing(keys[1..], remap); }
  }

  /** A caught failure and an empty result write the same: nothing. */
  lemma SameWrites(a: St, b: St, o: Outcome<Params>, p: Outcome<Params>)
    requires a.vars == b.vars
    requires p == o || (o.Throw? && p == Ok(map[]))
    ensures WriteBack(a, o).1 == WriteBack(b, p).1 && WriteBack(a, o).0.vars == WriteBack(b, p).0.vars
  {
  }

  lemma RunSubAlike(env: Env, cfg: Cfg, a: St, b: St, j: nat, tick: Tick, up: Params)
    requires Shape(cfg, a) && Shape(cfg, b) && Alike(cfg, a, b) && j < |cfg.subs|
    ensures var (x, o, _) := RunObj(env, cfg, a, Sub(j), tick, up);
            var (y, p, _) := RunObj(Quiet(env), cfg, b, Sub(j), tick, up);
            o == p && Alike(cfg, x, y)
  {
    GuardSubAlike(env, cfg.subs[j], a.subs[j], Vals(a.vars), tick, up);
    var (s, _, o) := GuardSub(env, cfg.subs[j], a.subs[j], Vals(a.vars), tick, up);
    var (_, _, p) := GuardSub(Quiet(env), cfg.subs[j], b.subs[j], Vals(b.vars), tick, up);
    var a1, b1 := a.(subs := a.subs[j := s]), b.(subs := b.subs[j := s]);
    AlikeOwn(cfg, a, b, a1, b1);
    FinishSubAlike(cfg, a1, b1, cfg.subs[j].name, o, p);
  }

  lemma FinishSubAlike(cfg: Cfg, a: St, b: St, name: string, o: Outcome<Params>, p: Outcome<Params>)
    requires Shape(cfg, a) && Shape(cfg, b) && Alike(cfg, a, b)
    requires p == o || (o.Throw? && p == Ok(map[]))
    ensures var (x, w) := WriteBack(Handle(a, name, o), o);
            var (y, v) := WriteBack(Handle(b, name, p), p);
            Shape(cfg, x) && Shape(cfg, y) && w == v && Alike(cfg, x, y)
  {
    SameWrites(Handle(a, name, o), Handle(b, name, p), o, p);
    AlikeOwn(cfg, a, b, WriteBack(Handle(a, name, o), o).0, WriteBack(Handle(b, name, p), p).0);
  }

  lemma {:induction false} GuardChildAlike(env: Env, cc: Cfg, a: St, b: St, vals: Params, tick: Tick)
    requires Shape(cc, a) && Shape(cc, b) && Alike(cc, a, b)
    ensures var (x, _, o) := GuardChild(env, cc, a, vals, tick);
            var (y, _, p) := GuardChild(Quiet(env), cc, b, vals, tick);
            o == p && Alike(cc, x, y)
    decreases cc, 5
  {
    var pow := Powered(cc.cond, vals);
    if pow.Ok? { SwitchAlike(env, cc, a, b, pow.value, vals, tick); }
  }

  lemma {:induction false} RunChildAlike(env: Env, cfg: Cfg, a: St, b: St, i: nat, tick: Tick, up: Params)
    requires Shape(cfg, a) && Shape(cfg, b) && Alike(cfg, a, b) && i < |cfg.children|
    ensures var (x, o, _) := RunObj(env, cfg, a, Child(i), tick, up);
            var (y, p, _) := RunObj(Quiet(env), cfg, b, Child(i), tick, up);
            o == p && Alike(cfg, x, y)
    decreases cfg, 1
  {
    var cc, vals := cfg.children[i], Vals(a.vars);
    GuardChildAlike(env, cc, a.children[i], b.children[i], vals, tick);
    var (x, _, o) := GuardChild(env, cc, a.children[i], vals, tick);
    var (y, _, p) := GuardChild(Quiet(env), cc, b.children[i], vals, tick);
    AlikeChild(cfg, a, b, i, x, y);
    FinishChildAlike(cfg, a.(children := a.children[i := x]), b.(children := b.children[i := y]), i, o);
  }

  lemma FinishChildAlike(cfg: Cfg, a: St, b: St, i: nat, o: Outcome<Params>)
    requires Shape(cfg, a) && Shape(cfg, b) && Alike(cfg, a, b) && i < |cfg.children|
    ensures var (x, p) := WriteBack(Drain(cfg, Handle(a, cfg.children[i].name, o), i), o);
            var (y, q) := WriteBack(Drain(cfg, Handle(b, cfg.children[i].name, o), i), o);
            Shape(cfg, x) && Shape(cfg, y) && p == q && Alike(cfg, x, y)
  {
    var cc, x, y := cfg.children[i], a.children[i], b.children[i];
    AlikeOwn(cc, x, y, x.(errBlocks := {}), y.(errBlocks := {}));
    AlikeChild(cfg, a, b, i, x.(errBlocks := {}), y.(errBlocks := {}));
    var a1, b1 := a.(children := a.children[i := x.(errBlocks := {})]),
      b.(children := b.children[i := y.(errBlocks := {})]);
    AlikeOwn(cfg, a1, b1,
             WriteBack(Drain(cfg, Handle(a, cc.name, o), i), o).0,
             WriteBack(Drain(cfg, Handle(b, cc.name, o), i), o).0);
  }

  lemma {:induction false} RunObjsAlike(env: Env, cfg: Cfg, a: St, b: St, refs: seq<Ref>, tick: Tick, up: Params)
    requires Shape(cfg, a) && Shape(cfg, b) && Alike(cfg, a, b) && forall r <- refs :: ValidRef(cfg, r)
    ensures var (x, o, _) := RunObjs(env, cfg, a, refs, tick, up);
            var (y, p, _) := RunObjs(Quiet(env), cfg, b, refs, tick, up);
            o == p && Alike(cfg, x, y)
    decreases cfg, 2, |refs|
  {
    if refs != [] {
      assert ValidRef(cfg, refs[0]);
      if refs[0].Sub? { RunSubAlike(env, cfg, a, b, refs[0].j, tick, up); }
      else { RunChildAlike(env, cfg, a, b, refs[0].i, tick, up); }
      var (x, o, _) := RunObj(env, cfg, a, refs[0], tick, up);
      var (y, _, _) := RunObj(Quiet(env), cfg, b, refs[0], tick, up);
      if o.Ok? { RunObjsAlike(env, cfg, x, y, refs[1..], tick, up); }
    }
  }

  lemma {:induction false} CandsAlike(cfg: Cfg, a: St, b: St, time: real, n: nat, m: nat)
    requires Shape(cfg, a) && Shape(cfg, b) && Alike(cfg, a, b) && n <= |cfg.children| && m <= |cfg.subs|
    ensures ChildCands(cfg, a, time, n) == ChildCands(cfg, b, time, n) && SubCands(cfg, a, m) == SubCands(cfg, b, m)
    decreases n + m
  {
    if n > 0 {
      CandsAlike(cfg, a, b, time, n - 1, m);
      assert Alike(cfg.children[n - 1], a.children[n - 1], b.children[n - 1]);
    }
    if m > 0 { CandsAlike(cfg, a, b, time, n, m - 1); }
  }

  /** One whole step, failing functions against silent ones. */
  lemma {:induction false} CallAlike(env: Env, cfg: Cfg, a: St, b: St, tick: Tick, up: Params)
    requires Shape(cfg, a) && Shape(cfg, b) && Alike(cfg, a, b)
    ensures var (x, o) := Call(env, cfg, a, tick, up);
            var (y, p) := Call(Quiet(env), cfg, b, tick, up);
            o == p && Alike(cfg, x, y)
    decreases cfg, 3
  {
    var (a1, o) := Begin(cfg, a, up);
    var (b1, _) := Begin(cfg, b, up);
    AlikeOwn(cfg, a, b, a1, b1);
    if o.Ok? {
      CandsAlike(cfg, a1, b1, tick.time, |cfg.children|, |cfg.subs|);
      ScheduleValid(cfg, a1, tick.time);
      RunObjsAlike(env, cfg, a1, b1, Schedule(cfg, a1, tick.time), tick, up);
    }
  }
}
