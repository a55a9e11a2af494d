/** Whole runs of a loaded model: root steps in any order with operator commands. */
module Runs {
  import opened Common
  import opened StringOrder
  import opened Values
  import opened Engine
  import opened Names
  import opened Frame
  import opened Power
  import opened Soundness
  import opened Wires
  import opened ErrorPaths
  import opened Loader
  import opened LoaderSoundness
  import opened LoaderExact

  /** What the operator's control functions do to the block at a path. */
  datatype Command =
    | SetValue(name: string, val: Value)
    | LockVar(name: string, on: bool)
    | LockBlock(on: bool)
    | LockSub(j: nat, on: bool)
    | FetchErrors(max: nat)

  datatype Action = Step(tick: Tick) | Operate(path: seq<nat>, cmd: Command)

  /** A command on the block itself.  A value that does not parse to the variable's type is refused. */
  function ApplyHere(st: St, cmd: Command): St {
    match cmd
    case SetValue(name, v) =>
      if name in st.vars && TypeOf(v) == TypeOf(st.vars[name].val) then
        st.(vars := st.vars[name := st.vars[name].(val := v)]) else st
    case LockVar(name, on) =>
      if name in st.vars then st.(vars := st.vars[name := st.vars[name].(locked := on)]) else st
    case LockBlock(on) => st.(blocked := on)
    case LockSub(j, on) => if j < |st.subs| then st.(subs := st.subs[j := st.subs[j].(blocked := on)]) else st
    case FetchErrors(max) => st.(errors := st.errors[if max < |st.errors| then max else |st.errors|..])
  }

  function Apply(cfg: Cfg, st: St, path: seq<nat>, cmd: Command): (r: St)
    requires Shape(cfg, st)
    ensures Shape(cfg, r)
    decreases cfg
  {
    if path == [] then ApplyHere(st, cmd)
    else if path[0] >= |cfg.children| then st
    else st.(children := st.children[path[0] := Apply(cfg.children[path[0]], st.children[path[0]], path[1..], cmd)])
  }

  /** One turn of the dispatcher: step the main block, then fetch its error names. */
  function RootStep(env: Env, cfg: Cfg, st: St, tick: Tick): (r: (St, Outcome<Params>))
    requires Shape(cfg, st)
    ensures Shape(cfg, r.0)
  {
    var (st1, o) := Call(env, cfg, PreCall(cfg, st, tick.now), tick, map[]);
    (st1.(errBlocks := {}), o)
  }

  function Perform(env: Env, cfg: Cfg, st: St, a: Action): (r: St)
    requires Shape(cfg, st)
    ensures Shape(cfg, r)
  {
    match a
    case Step(tick) => RootStep(env, cfg, st, tick).0
    case Operate(path, cmd) => Apply(cfg, st, path, cmd)
  }

  function Run(env: Env, cfg: Cfg, st: St, acts: seq<Action>): (r: St)
    requires Shape(cfg, st)
    ensures Shape(cfg, r)
  {
    if acts == [] then st else Perform(env, cfg, Run(env, cfg, st, acts[..|acts| - 1]), acts[|acts| - 1])
  }

  // ----- commands -----

  lemma {:induction false} SameTypesRefl(cfg: Cfg, st: St)
    requires Shape(cfg, st)
    ensures SameTypes(cfg, st, st)
    decreases cfg
  {
    forall i | 0 <= i < |cfg.children| ensures SameTypes(cfg.children[i], st.children[i], st.children[i]) {
      SameTypesRefl(cfg.children[i], st.children[i]);
    }
  }

  lemma {:induction false} SameTypesTrans(cfg: Cfg, a: St, b: St, c: St)
    requires Shape(cfg, a) && Shape(cfg, b) && Shape(cfg, c) && SameTypes(cfg, a, b) && SameTypes(cfg, b, c)
    ensures SameTypes(cfg, a, c)
    decreases cfg
  {
    forall i | 0 <= i < |cfg.children| ensures SameTypes(cfg.children[i], a.children[i], c.children[i]) {
      SameTypesTrans(cfg.children[i], a.children[i], b.children[i], c.children[i]);
    }
  }

  lemma HereKeepsTypes(cfg: Cfg, st: St, cmd: Command)
    requires Shape(cfg, st)
    ensures SameTypes(cfg, st, ApplyHere(st, cmd)) && ApplyHere(st, cmd).power == st.power &&
            ApplyHere(st, cmd).children == st.children
  {
    SameTypesRefl(cfg, st);
  }

  /** A command changes no type and moves no power flag. */
  lemma {:induction false} ApplyKeepsTypes(cfg: Cfg, st: St, path: seq<nat>, cmd: Command)
    requires Shape(cfg, st)
    ensures SameTypes(cfg, st, Apply(cfg, st, path, cmd)) && Apply(cfg, st, path, cmd).power == st.power
    decreases cfg
  {
    SameTypesRefl(cfg, st);
    if path == [] {
      HereKeepsTypes(cfg, st, cmd);
    } else if path[0] < |cfg.children| {
      ApplyKeepsTypes(cfg.children[path[0]], st.children[path[0]], path[1..], cmd);
    }
  }

  lemma HereKeepsBenign(cfg: Cfg, st: St, cmd: Command)
    requires Shape(cfg, st) && OnlyBenign(cfg, st)
    ensures OnlyBenign(cfg, ApplyHere(st, cmd))
  {
    forall m | m in ApplyHere(st, cmd).errors ensures m in st.errors {}
  }

  /** A command adds no message. */
  lemma {:induction false} ApplyKeepsBenign(cfg: Cfg, st: St, path: seq<nat>, cmd: Command)
    requires Shape(cfg, st) && OnlyBenign(cfg, st)
    ensures OnlyBenign(cfg, Apply(cfg, st, path, cmd))
    decreases cfg
  {
    if path == [] {
      HereKeepsBenign(cfg, st, cmd);
    } else if path[0] < |cfg.children| {
      ApplyKeepsBenign(cfg.children[path[0]], st.children[path[0]], path[1..], cmd);
    }
  }

  lemma {:induction false} ApplyKeepsDark(cfg: Cfg, st: St, path: seq<nat>, cmd: Command)
    requires Shape(cfg, st) && DarkBelow(cfg, st)
    ensures DarkBelow(cfg, Apply(cfg, st, path, cmd))
    decreases cfg
  {
    if path != [] && path[0] < |cfg.children| {
      var i := path[0];
      ApplyKeepsDark(cfg.children[i], st.children[i], path[1..], cmd);
      ApplyKeepsTypes(cfg.children[i], st.children[i], path[1..], cmd);
    }
  }

  lemma {:induction false} ApplyKeepsInv(cfg: Cfg, st: St, path: seq<nat>, cmd: Command)
    requires Shape(cfg, st) && PowerInv(cfg, st)
    ensures PowerInv(cfg, Apply(cfg, st, path, cmd))
    decreases cfg
  {
    if path != [] && path[0] < |cfg.children| {
      var i := path[0];
      var cc, c := cfg.children[i], st.children[i];
      assert PowerClosed(cc, c);
      var c1 := Apply(cc, c, path[1..], cmd);
      ApplyKeepsInv(cc, c, path[1..], cmd);
      ApplyKeepsTypes(cc, c, path[1..], cmd);
      if !c.power { ApplyKeepsDark(cc, c, path[1..], cmd); }
      ReplaceChildInv(cfg, st, Apply(cfg, st, path, cmd), i, c1);
    }
  }

  // ----- the invariant of runs -----

  /** Well wired, with type-respecting functions, only benign errors and closed power flags. */
  ghost predicate Healthy(env: Env, cfg: Cfg, st: St)
    requires Shape(cfg, st)
  {
    && WellWired(cfg, st) && RespectsTypes(env, cfg, st, map[]) && OnlyBenign(cfg, st) && PowerInv(cfg, st)
    && cfg.use == map[] && cfg.ret == map[]
  }

  /** A change of the block's own fields that the frame allows, without new messages. */
  lemma HealthyOwn(env: Env, cfg: Cfg, a: St, b: St)
    requires Shape(cfg, a) && Healthy(env, cfg, a)
    requires b.children == a.children && b.subs == a.subs && b.vars == a.vars && b.blocked == a.blocked &&
             b.errors == a.errors
    ensures Shape(cfg, b) && Healthy(env, cfg, b)
  {
    OwnFramed(cfg, a, b);
    WellWiredFramed(cfg, a, b);
    RespectsTypesFramed(env, cfg, a, b, map[]);
    SameBenign(cfg, a, b);
  }

  lemma HealthyCall(env: Env, cfg: Cfg, st: St, tick: Tick)
    requires Shape(cfg, st) && Healthy(env, cfg, st)
    ensures var (r, o) := Call(env, cfg, st, tick, map[]); o.Ok? && Healthy(env, cfg, r)
  {
    var none: Params := map[];
    assert TypesOf(none) == map[];
    CallSound(env, cfg, st, tick, none);
    CallInv(env, cfg, st, tick, none);
    CallFramed(env, cfg, st, tick, none);
    var r := Call(env, cfg, st, tick, none).0;
    WellWiredFramed(cfg, st, r);
    RespectsTypesFramed(env, cfg, st, r, map[]);
  }

  lemma HealthyStep(env: Env, cfg: Cfg, st: St, tick: Tick)
    requires Shape(cfg, st) && Healthy(env, cfg, st)
    ensures var (r, o) := RootStep(env, cfg, st, tick); o.Ok? && Healthy(env, cfg, r)
  {
    var st0 := PreCall(cfg, st, tick.now);
    HealthyOwn(env, cfg, st, st0);
    HealthyCall(env, cfg, st0, tick);
    var st1 := Call(env, cfg, st0, tick, map[]).0;
    HealthyOwn(env, cfg, st1, st1.(errBlocks := {}));
  }

  lemma HealthyCommand(env: Env, cfg: Cfg, st: St, path: seq<nat>, cmd: Command)
    requires Shape(cfg, st) && Healthy(env, cfg, st)
    ensures Healthy(env, cfg, Apply(cfg, st, path, cmd))
  {
    ApplyKeepsTypes(cfg, st, path, cmd);
    ApplyKeepsBenign(cfg, st, path, cmd);
    ApplyKeepsInv(cfg, st, path, cmd);
    WellWiredSameTypes(cfg, st, Apply(cfg, st, path, cmd));
    RespectsSameTypes(env, cfg, st, Apply(cfg, st, path, cmd), map[]);
  }

  lemma {:induction false} HealthyRun(env: Env, cfg: Cfg, st: St, acts: seq<Action>)
    requires Shape(cfg, st) && Healthy(env, cfg, st)
    ensures Healthy(env, cfg, Run(env, cfg, st, acts))
    decreases |acts|
  {
    if acts != [] {
      HealthyRun(env, cfg, st, acts[..|acts| - 1]);
      var mid := Run(env, cfg, st, acts[..|acts| - 1]);
      match acts[|acts| - 1]
      case Step(tick) => HealthyStep(env, cfg, mid, tick);
      case Operate(path, cmd) => HealthyCommand(env, cfg, mid, path, cmd);
    }
  }

  /** Loader soundness: a model loaded from a configuration whose names agree, with functions that keep
      to the types as described, is never stopped by a step after any sequence of steps and commands,
      and the errors it collects come only from user functions and malformed power conditions. */
  lemma LoadedModelNeverGoesWrong(fac: Factory, name: string, bd: BlockDesc, env: Env, acts: seq<Action>, tick: Tick)
    requires FactoryOk(fac) && KeysDistinct(bd) && Load(fac, name, bd).Accepted?
    requires DescAgrees(fac, bd) && DescRespects(env, fac, bd, map[])
    ensures var t := Load(fac, name, bd).value;
            var st := Run(env, t.cfg, t.st, acts);
            && RootStep(env, t.cfg, st, tick).1.Ok?
            && WellWired(t.cfg, st) && OnlyBenign(t.cfg, st) && PowerInv(t.cfg, st)
  {
    LoadedReady(fac, name, bd, env);
    var t := Load(fac, name, bd).value;
    DarkIsClosed(t.cfg, t.st);
    HealthyRun(env, t.cfg, t.st, acts);
    HealthyStep(env, t.cfg, Run(env, t.cfg, t.st, acts), tick);
  }

  // ----- power flags in arbitrary runs -----

  /** The power invariant needs none of that: it holds after any run of any tree that starts dark,
      whatever escapes the steps. */
  lemma {:induction false} PowerInvRun(env: Env, cfg: Cfg, st: St, acts: seq<Action>)
    requires Shape(cfg, st) && DarkBelow(cfg, st)
    ensures PowerInv(cfg, Run(env, cfg, st, acts))
    decreases |acts|
  {
    if acts == [] {
      DarkIsClosed(cfg, st);
    } else {
      PowerInvRun(env, cfg, st, acts[..|acts| - 1]);
      var mid := Run(env, cfg, st, acts[..|acts| - 1]);
      match acts[|acts| - 1]
      case Step(tick) => CallInv(env, cfg, PreCall(cfg, mid, tick.now), tick, map[]);
      case Operate(path, cmd) => ApplyKeepsInv(cfg, mid, path, cmd);
    }
  }

  // ----- locks and wires over runs -----

  function Steps(ticks: seq<Tick>): seq<Action> {
    seq(|ticks|, n requires 0 <= n < |ticks| => Step(ticks[n]))
  }

  lemma FramedRootStep(env: Env, cfg: Cfg, st: St, tick: Tick)
    requires Shape(cfg, st)
    ensures Framed(cfg, st, RootStep(env, cfg, st, tick).0)
  {
    var none: Params := map[];
    var st0 := PreCall(cfg, st, tick.now);
    OwnFramed(cfg, st, st0);
    CallFramed(env, cfg, st0, tick, none);
    var st1 := Call(env, cfg, st0, tick, none).0;
    FramedTrans(cfg, st, st0, st1);
    OwnFramed(cfg, st1, st1.(errBlocks := {}));
    FramedTrans(cfg, st, st1, st1.(errBlocks := {}));
  }

  /** Between commands the frame spans the whole run: at every depth the variables, their types and
      locks, and every locked value outside the USE destinations are those of its start, and the
      queued messages have only been added to. */
  lemma {:induction false} FramedRun(env: Env, cfg: Cfg, st: St, ticks: seq<Tick>)
    requires Shape(cfg, st)
    ensures Framed(cfg, st, Run(env, cfg, st, Steps(ticks)))
    decreases |ticks|
  {
    FramedRefl(cfg, st);
    if ticks != [] {
      var acts := Steps(ticks);
      assert acts[..|acts| - 1] == Steps(ticks[..|ticks| - 1]);
      FramedRun(env, cfg, st, ticks[..|ticks| - 1]);
      var mid := Run(env, cfg, st, acts[..|acts| - 1]);
      FramedRootStep(env, cfg, mid, ticks[|ticks| - 1]);
      FramedTrans(cfg, st, mid, RootStep(env, cfg, mid, ticks[|ticks| - 1]).0);
    }
  }

  lemma ReadyRootStep(env: Env, cfg: Cfg, st: St, tick: Tick)
    requires Shape(cfg, st) && Ready(env, cfg, st, map[]) && cfg.use == map[] && cfg.ret == map[]
    ensures Ready(env, cfg, RootStep(env, cfg, st, tick).0, map[])
  {
    var none: Params := map[];
    assert TypesOf(none) == map[];
    var st0 := PreCall(cfg, st, tick.now);
    OwnFramed(cfg, st, st0);
    OwnCoherent(cfg, st, st0, {});
    ReadyFramed(env, cfg, st, st0, map[]);
    CallCoherent(env, cfg, st0, tick, none);
    var st1 := Call(env, cfg, st0, tick, none).0;
    var r := st1.(errBlocks := {});
    OwnFramed(cfg, st1, r);
    OwnCoherent(cfg, st1, r, {});
    ReadyFramed(env, cfg, st1, r, map[]);
  }

  /** A step, or a command that neither sets a variable nor unlocks one. */
  predicate Harmless(a: Action) {
    a.Operate? ==> !a.cmd.SetValue? && !(a.cmd.LockVar? && !a.cmd.on)
  }

  lemma HereKeepsCoherent(cfg: Cfg, st: St, cmd: Command)
    requires Shape(cfg, st) && Coherent(cfg, st) && Harmless(Operate([], cmd))
    ensures Coherent(cfg, ApplyHere(st, cmd)) && Vals(ApplyHere(st, cmd).vars) == Vals(st.vars)
  {
    hide Coherent;
    var r := ApplyHere(st, cmd);
    assert forall k | k in st.vars :: k in r.vars && r.vars[k].val == st.vars[k].val;
    assert forall k | k in st.vars :: st.vars[k].locked ==> r.vars[k].locked;
    MoreLocksKeepCoherent(cfg, st, r);
  }

  lemma MoreLocksKeepCoherent(cfg: Cfg, st: St, r: St)
    requires Shape(cfg, st) && Shape(cfg, r) && Coherent(cfg, st)
    requires r.children == st.children && r.vars.Keys == st.vars.Keys
    requires forall k <- st.vars :: r.vars[k].val == st.vars[k].val && (st.vars[k].locked ==> r.vars[k].locked)
    ensures Coherent(cfg, r)
  {
    forall i, d | 0 <= i < |cfg.children| && CleanWire(cfg, i, d) && !Locked(r.vars, d)
      ensures WireHolds(cfg, r, i, d)
    {
      assert WireHolds(cfg, st, i, d);
    }
  }

  lemma {:induction false} ApplyKeepsCoherent(cfg: Cfg, st: St, path: seq<nat>, cmd: Command)
    requires Shape(cfg, st) && Coherent(cfg, st) && Harmless(Operate(path, cmd))
    ensures Coherent(cfg, Apply(cfg, st, path, cmd)) && Vals(Apply(cfg, st, path, cmd).vars) == Vals(st.vars)
    decreases cfg
  {
    if path == [] {
      HereKeepsCoherent(cfg, st, cmd);
    } else if path[0] < |cfg.children| {
      ApplyKeepsCoherent(cfg.children[path[0]], st.children[path[0]], path[1..], cmd);
      ChildKeepsCoherent(cfg, st, path[0], Apply(cfg.children[path[0]], st.children[path[0]], path[1..], cmd));
    }
  }

  lemma ChildKeepsCoherent(cfg: Cfg, st: St, i: nat, c: St)
    requires Shape(cfg, st) && Coherent(cfg, st) && i < |cfg.children|
    requires Shape(cfg.children[i], c) && Coherent(cfg.children[i], c) && Vals(c.vars) == Vals(st.children[i].vars)
    ensures var r := st.(children := st.children[i := c]); Shape(cfg, r) && Coherent(cfg, r)
  {
    var r := st.(children := st.children[i := c]);
    assert forall k :: k in c.vars <==> k in Vals(c.vars);
    forall k, d | 0 <= k < |cfg.children| && CleanWire(cfg, k, d) && !Locked(r.vars, d)
      ensures WireHolds(cfg, r, k, d)
    {
      assert WireHolds(cfg, st, k, d);
      if k == i { assert Vals(c.vars)[cfg.children[i].ret[d]] == c.vars[cfg.children[i].ret[d]].val; }
    }
  }

  lemma ReadyCommand(env: Env, cfg: Cfg, st: St, path: seq<nat>, cmd: Command)
    requires Shape(cfg, st) && Ready(env, cfg, st, map[]) && Harmless(Operate(path, cmd))
    ensures Ready(env, cfg, Apply(cfg, st, path, cmd), map[])
  {
    ApplyKeepsCoherent(cfg, st, path, cmd);
    ApplyKeepsTypes(cfg, st, path, cmd);
    WellWiredSameTypes(cfg, st, Apply(cfg, st, path, cmd));
    RespectsSameTypes(env, cfg, st, Apply(cfg, st, path, cmd), map[]);
  }

  lemma {:induction false} ReadyRun(env: Env, cfg: Cfg, st: St, acts: seq<Action>)
    requires Shape(cfg, st) && Ready(env, cfg, st, map[]) && cfg.use == map[] && cfg.ret == map[]
    requires forall a <- acts :: Harmless(a)
    ensures Ready(env, cfg, Run(env, cfg, st, acts), map[])
    decreases |acts|
  {
    hide Ready;
    if acts != [] {
      var init, last := acts[..|acts| - 1], acts[|acts| - 1];
      ReadyRun(env, cfg, st, init);
      assert Harmless(last);
      match last
      case Step(tick) => ReadyRootStep(env, cfg, Run(env, cfg, st, init), tick);
      case Operate(path, cmd) => ReadyCommand(env, cfg, Run(env, cfg, st, init), path, cmd);
    }
  }

  /** Wire coherence in every state reachable by steps and commands that neither set nor unlock a variable,
      at every depth and across power edges, for models whose names agree in type and start value and whose
      functions respect the types and leave fed variables alone. */
  lemma LoadedWiresStayCoherent(fac: Factory, name: string, bd: BlockDesc, env: Env, acts: seq<Action>)
    requires FactoryOk(fac) && KeysDistinct(bd) && Load(fac, name, bd).Accepted?
    requires DescAgrees(fac, bd) && SourcesAgree(fac, bd)
    requires DescRespects(env, fac, bd, map[]) && DescAvoidsFed(env, fac, bd)
    requires forall a <- acts :: Harmless(a)
    ensures var t := Load(fac, name, bd).value; Coherent(t.cfg, Run(env, t.cfg, t.st, acts))
  {
    LoadedReady(fac, name, bd, env);
    LoadedWired(fac, name, bd, env);
    var t := Load(fac, name, bd).value;
    ReadyRun(env, t.cfg, t.st, acts);
  }
}
