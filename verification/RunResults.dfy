/** What single steps give, over whole runs of a loaded model: reported error names, blocks that are off,
    and names that do not agree. */
module RunResults {
  import opened Common
  import opened StringOrder
  import opened Values
  import opened Engine
  import opened Names
  import opened Scheduling
  import opened StepLog
  import opened Frame
  import opened Power
  import opened Soundness
  import opened ErrorPaths
  import opened WiringLimits
  import opened StepEnds
  import opened StuckBlocks
  import opened OffBlocks
  import opened Loader
  import opened LoaderSoundness
  import opened Described
  import opened LoaderExact
  import opened Runs

  // ----- types -----

  /** No action changes a type, whatever escapes the steps. */
  lemma {:induction false} RunSameTypes(env: Env, cfg: Cfg, st: St, acts: seq<Action>)
    requires Shape(cfg, st)
    ensures SameTypes(cfg, st, Run(env, cfg, st, acts))
    decreases |acts|
  {
    hide RootStep, Apply;
    SameTypesRefl(cfg, st);
    if acts != [] {
      var init := acts[..|acts| - 1];
      RunSameTypes(env, cfg, st, init);
      var mid, last := Run(env, cfg, st, init), Run(env, cfg, st, acts);
      match acts[|acts| - 1] {
        case Step(tick) =>
          FramedRootStep(env, cfg, mid, tick);
          FramedSameTypes(cfg, mid, last);
        case Operate(path, cmd) => ApplyKeepsTypes(cfg, mid, path, cmd);
      }
      SameTypesTrans(cfg, st, mid, last);
    }
  }

  // ----- error names -----

  lemma {:induction false} ApplyKeepsDrained(cfg: Cfg, st: St, path: seq<nat>, cmd: Command)
    requires Shape(cfg, st) && Drained(cfg, st)
    ensures Drained(cfg, Apply(cfg, st, path, cmd)) && Apply(cfg, st, path, cmd).errBlocks == st.errBlocks
    decreases cfg
  {
    if path != [] && path[0] < |cfg.children| {
      ApplyKeepsDrained(cfg.children[path[0]], st.children[path[0]], path[1..], cmd);
    }
  }

  /** Between the actions of a healthy run no error name is left anywhere. */
  ghost predicate Quiet(cfg: Cfg, st: St)
    requires Shape(cfg, st)
  {
    st.errBlocks == {} && Drained(cfg, st)
  }

  /** A step of a quiet healthy tree reports exactly the objects that fail in it. */
  lemma QuietStep(env: Env, cfg: Cfg, st: St, tick: Tick)
    requires Shape(cfg, st) && Healthy(env, cfg, st) && Quiet(cfg, st)
    ensures Quiet(cfg, RootStep(env, cfg, st, tick).0)
    ensures var st0 := PreCall(cfg, st, tick.now);
            forall e :: e in Call(env, cfg, st0, tick, map[]).0.errBlocks <==> Reports(env, cfg, st0, tick, map[], e)
  {
    hide Healthy, Reports, CallLog;
    var none: Params := map[];
    var st0 := PreCall(cfg, st, tick.now);
    HealthyStep(env, cfg, st, tick);
    assert Drained(cfg, st0);
    CallNames(env, cfg, st0, tick, none);
    var st1 := Call(env, cfg, st0, tick, none).0;
    assert Drained(cfg, st1.(errBlocks := {}));
  }

  lemma {:induction false} QuietRun(env: Env, cfg: Cfg, st: St, acts: seq<Action>)
    requires Shape(cfg, st) && Healthy(env, cfg, st) && Quiet(cfg, st)
    ensures Healthy(env, cfg, Run(env, cfg, st, acts)) && Quiet(cfg, Run(env, cfg, st, acts))
    decreases |acts|
  {
    hide Healthy, RootStep, Apply;
    HealthyRun(env, cfg, st, acts);
    if acts != [] {
      var init := acts[..|acts| - 1];
      QuietRun(env, cfg, st, init);
      var mid := Run(env, cfg, st, init);
      match acts[|acts| - 1]
      case Step(tick) => QuietStep(env, cfg, mid, tick);
      case Operate(path, cmd) => ApplyKeepsDrained(cfg, mid, path, cmd);
    }
  }

  lemma {:induction false} PristineIsDrained(cfg: Cfg, st: St)
    requires Shape(cfg, st) && Pristine(cfg, st)
    ensures Drained(cfg, st)
    decreases cfg
  {
    forall i | 0 <= i < |cfg.children|
      ensures st.children[i].errBlocks == {} && Drained(cfg.children[i], st.children[i])
    {
      PristineIsDrained(cfg.children[i], st.children[i]);
    }
  }

  /** Block names without dots, at every depth of the configuration. */
  ghost predicate DescNames(bd: BlockDesc)
    decreases bd
  {
    forall i | 0 <= i < |bd.blocks| :: DotFree(bd.blocks[i].name) && DescNames(bd.blocks[i].desc)
  }

  lemma {:induction false} NamesAsDescribed(fac: Factory, bd: BlockDesc, cfg: Cfg, st: St)
    requires KeysDistinct(bd) && Shape(cfg, st) && Reflects(fac, bd, cfg, st)
    ensures NamesOk(cfg) <==> DescNames(bd)
    decreases bd
  {
    hide Feeds, Uses;
    forall i | 0 <= i < |bd.blocks| ensures NamesOk(cfg.children[i]) <==> DescNames(bd.blocks[i].desc) {
      NamesAsDescribed(fac, bd.blocks[i].desc, cfg.children[i], st.children[i]);
    }
  }

  lemma LoadedQuietRun(fac: Factory, name: string, bd: BlockDesc, env: Env, acts: seq<Action>)
    requires FactoryOk(fac) && KeysDistinct(bd) && Load(fac, name, bd).Accepted?
    requires DescAgrees(fac, bd) && DescRespects(env, fac, bd, map[])
    ensures var t := Load(fac, name, bd).value;
            var st := Run(env, t.cfg, t.st, acts);
            Healthy(env, t.cfg, st) && Quiet(t.cfg, st)
  {
    LoadedReady(fac, name, bd, env);
    var t := Load(fac, name, bd).value;
    DarkIsClosed(t.cfg, t.st);
    PristineIsDrained(t.cfg, t.st);
    QuietRun(env, t.cfg, t.st, acts);
  }

  /** Error reporting over whole runs of a loaded model: after any steps and commands, the names the next
      step hands out are exactly the dotted paths of the objects that fail in it. */
  lemma LoadedReports(fac: Factory, name: string, bd: BlockDesc, env: Env, acts: seq<Action>, tick: Tick, e: string)
    requires FactoryOk(fac) && KeysDistinct(bd) && Load(fac, name, bd).Accepted?
    requires DescAgrees(fac, bd) && DescRespects(env, fac, bd, map[])
    ensures var t := Load(fac, name, bd).value;
            var st := PreCall(t.cfg, Run(env, t.cfg, t.st, acts), tick.now);
            e in Call(env, t.cfg, st, tick, map[]).0.errBlocks <==> Reports(env, t.cfg, st, tick, map[], e)
  {
    hide Load, Call, Reports, Healthy;
    LoadedQuietRun(fac, name, bd, env, acts);
    var t := Load(fac, name, bd).value;
    QuietStep(env, t.cfg, Run(env, t.cfg, t.st, acts), tick);
  }

  /** And with block names free of dots each of them finds the failed object or its owner again. */
  lemma LoadedReportFindsOwner(fac: Factory, name: string, bd: BlockDesc, env: Env, acts: seq<Action>, tick: Tick,
                               e: string) returns (path: seq<nat>, ref: Ref)
    requires FactoryOk(fac) && KeysDistinct(bd) && Load(fac, name, bd).Accepted? && DescNames(bd)
    requires DescAgrees(fac, bd) && DescRespects(env, fac, bd, map[])
    requires var t := Load(fac, name, bd).value;
             e in Call(env, t.cfg, PreCall(t.cfg, Run(env, t.cfg, t.st, acts), tick.now), tick, map[]).0.errBlocks
    ensures var t := Load(fac, name, bd).value;
            var st := PreCall(t.cfg, Run(env, t.cfg, t.st, acts), tick.now);
            && Fails(env, t.cfg, st, tick, map[], path, ref) && Exists(t.cfg, path, ref)
            && if path == [] then e == NameOf(t.cfg, ref)
               else
                 && e == Join(BlockPath(t.cfg, path), NameOf(At(t.cfg, path), ref))
                 && GetChild(t.cfg, BlockPath(t.cfg, path)) == Some(path)
  {
    hide Load, Call, Reports, Reflects, Fails;
    LoadedReports(fac, name, bd, env, acts, tick, e);
    LoadIsDescribed(fac, name, bd);
    var t := Load(fac, name, bd).value;
    NamesAsDescribed(fac, bd, t.cfg, t.st);
    var st := PreCall(t.cfg, Run(env, t.cfg, t.st, acts), tick.now);
    path, ref := ReportedNameFindsOwner(env, t.cfg, st, tick, map[], e);
  }

  // ----- blocks that are off -----

  /** The state of the block at a path of child numbers. */
  function StAt(cfg: Cfg, st: St, path: seq<nat>): (r: St)
    requires Shape(cfg, st) && ValidPath(cfg, path)
    ensures Shape(At(cfg, path), r)
    decreases path
  {
    if path == [] then st else StAt(cfg.children[path[0]], st.children[path[0]], path[1..])
  }

  lemma {:induction false} KeepsOffAt(cfg: Cfg, a: St, b: St, path: seq<nat>)
    requires Shape(cfg, a) && Shape(cfg, b) && KeepsOff(cfg, a, b) && ValidPath(cfg, path) && path != []
    ensures OnOrHeld(At(cfg, path), StAt(cfg, a, path)) ==> OnOrHeld(At(cfg, path), StAt(cfg, b, path))
    decreases path
  {
    hide OnOrHeld;
    var i, rest := path[0], path[1..];
    if rest == [] {
      assert At(cfg, path) == At(cfg.children[i], []) == cfg.children[i];
      assert StAt(cfg, a, path) == StAt(cfg.children[i], a.children[i], []) == a.children[i];
      assert StAt(cfg, b, path) == StAt(cfg.children[i], b.children[i], []) == b.children[i];
    } else {
      KeepsOffAt(cfg.children[i], a.children[i], b.children[i], rest);
    }
  }

  lemma OffStep(env: Env, cfg: Cfg, st: St, tick: Tick)
    requires Shape(cfg, st) && WellWired(cfg, st)
    ensures KeepsOff(cfg, st, RootStep(env, cfg, st, tick).0)
  {
    hide WellWired, KeepsOff, Call;
    var none: Params := map[];
    var st0 := PreCall(cfg, st, tick.now);
    OwnKeepsOff(cfg, st, st0);
    OwnFramed(cfg, st, st0);
    WellWiredFramed(cfg, st, st0);
    CallKeepsOff(env, cfg, st0, tick, none);
    var st1 := Call(env, cfg, st0, tick, none).0;
    OwnKeepsOff(cfg, st1, st1.(errBlocks := {}));
    KeepsOffTrans(cfg, st, st0, st1);
    KeepsOffTrans(cfg, st, st1, st1.(errBlocks := {}));
  }

  lemma {:induction false} OffRun(env: Env, cfg: Cfg, st: St, ticks: seq<Tick>)
    requires Shape(cfg, st) && WellWired(cfg, st)
    ensures KeepsOff(cfg, st, Run(env, cfg, st, Steps(ticks)))
    decreases |ticks|
  {
    hide WellWired, KeepsOff, RootStep;
    KeepsOffRefl(cfg, st);
    if ticks != [] {
      var acts := Steps(ticks);
      assert acts[..|acts| - 1] == Steps(ticks[..|ticks| - 1]);
      OffRun(env, cfg, st, ticks[..|ticks| - 1]);
      FramedRun(env, cfg, st, ticks[..|ticks| - 1]);
      var mid := Run(env, cfg, st, acts[..|acts| - 1]);
      WellWiredFramed(cfg, st, mid);
      OffStep(env, cfg, mid, ticks[|ticks| - 1]);
      KeepsOffTrans(cfg, st, mid, RootStep(env, cfg, mid, ticks[|ticks| - 1]).0);
    }
  }

  /** Between commands, a block at any depth of a well-wired tree that was on, or off with its power-off
      values, holds the power-off values of its whole subtree whenever it is off later. */
  lemma OffMeansHeld(env: Env, cfg: Cfg, st: St, ticks: seq<Tick>, path: seq<nat>)
    requires Shape(cfg, st) && WellWired(cfg, st) && ValidPath(cfg, path) && path != []
    requires OnOrHeld(At(cfg, path), StAt(cfg, st, path))
    ensures var b := StAt(cfg, Run(env, cfg, st, Steps(ticks)), path); !b.power ==> OffHeld(At(cfg, path), b)
  {
    hide WellWired, KeepsOff;
    OffRun(env, cfg, st, ticks);
    KeepsOffAt(cfg, st, Run(env, cfg, st, Steps(ticks)), path);
  }

  /** In a loaded model whose names agree: a block that has been on at some time, after any steps and
      commands, holds its power-off values whenever it is found off by steps alone after that. */
  lemma LoadedOffMeansHeld(fac: Factory, name: string, bd: BlockDesc, env: Env, acts: seq<Action>,
                           ticks: seq<Tick>, path: seq<nat>)
    requires FactoryOk(fac) && KeysDistinct(bd) && Load(fac, name, bd).Accepted? && DescAgrees(fac, bd)
    requires var t := Load(fac, name, bd).value;
             ValidPath(t.cfg, path) && path != [] && StAt(t.cfg, Run(env, t.cfg, t.st, acts), path).power
    ensures var t := Load(fac, name, bd).value;
            var b := StAt(t.cfg, Run(env, t.cfg, Run(env, t.cfg, t.st, acts), Steps(ticks)), path);
            !b.power ==> OffHeld(At(t.cfg, path), b)
  {
    hide Load, WellWired;
    LoaderSoundIff(fac, name, bd);
    var t := Load(fac, name, bd).value;
    var st := Run(env, t.cfg, t.st, acts);
    RunSameTypes(env, t.cfg, t.st, acts);
    WellWiredSameTypes(t.cfg, t.st, st);
    OffMeansHeld(env, t.cfg, st, ticks, path);
  }

  // ----- names that do not agree -----

  /** A USE wire of the child called b goes to a name that does not agree. */
  ghost predicate UseDisagrees(fac: Factory, bd: BlockDesc, b: NamedBlock) {
    exists u <- DescUses(bd.params, bd.params.Keys) :: u.block == b.name && !NameAgrees(fac, b.desc, u.name)
  }

  lemma DisagreeingUseIsBad(fac: Factory, bd: BlockDesc, cfg: Cfg, st: St, i: nat)
    requires FactoryOk(fac) && KeysDistinct(bd) && Shape(cfg, st) && BodyReflects(fac, bd, cfg, st) && i < |bd.blocks|
    requires ChildWired(cfg.children[i], st.children[i], st.vars) && UseDisagrees(fac, bd, bd.blocks[i])
    ensures BadUse(cfg.children[i], st.children[i], st.vars)
  {
    hide Feeds, Uses, DescFeeds, DescUses, NameAgrees, AgreesAt, GetVariable;
    var u :| u in DescUses(bd.params, bd.params.Keys) && u.block == bd.blocks[i].name &&
      !NameAgrees(fac, bd.blocks[i].desc, u.name);
    var cc, c := cfg.children[i], st.children[i];
    WiresOfChild(bd, cfg.children, i);
    AgreesAtIff(fac, bd.blocks[i].desc, cc, c, u.name);
    UseTypedIff(cc, c, st.vars);
    assert u.name in cc.use && !AgreesAt(cc, c, u.name);
    UntypedIsBad(cc, c, st.vars);
  }

  lemma UntypedIsBad(cc: Cfg, c: St, vars: Vars)
    requires forall n {:trigger cc.use[n]} | n in cc.use :: n in c.vars && cc.use[n] in vars
    requires !WiresTyped(cc.use, VarTypes(c.vars), VarTypes(vars))
    ensures BadUse(cc, c, vars)
  {
    var n :| n in cc.use && !(n in VarTypes(c.vars) && cc.use[n] in VarTypes(vars) &&
                              VarTypes(c.vars)[n] == VarTypes(vars)[cc.use[n]]);
  }

  /** In every step of every run of a loaded model, each call of a child with such a wire fails with a
      bad_cast, which is caught and recorded like any other (FailureIsContained). */
  lemma DisagreeingUseFails(fac: Factory, name: string, bd: BlockDesc, env: Env, acts: seq<Action>, tick: Tick, i: nat)
    requires FactoryOk(fac) && KeysDistinct(bd) && Load(fac, name, bd).Accepted?
    requires i < |bd.blocks| && UseDisagrees(fac, bd, bd.blocks[i])
    ensures var t := Load(fac, name, bd).value;
            var st := PreCall(t.cfg, Run(env, t.cfg, t.st, acts), tick.now);
            forall e <- CallLog(env, t.cfg, st, tick, map[]).2 ::
              e.ref == Child(i) && e.branch == Called ==> e.out == Throw(BadCast)
  {
    hide Load, CallLog, BadUse, UseDisagrees;
    var t := Load(fac, name, bd).value;
    LoadedBadUse(fac, name, bd, i);
    var r := Run(env, t.cfg, t.st, acts);
    RunSameTypes(env, t.cfg, t.st, acts);
    BadUseFramed(t.cfg.children[i], t.st.children[i], r.children[i], t.st.vars, r.vars);
    ChildEntries(env, t.cfg, PreCall(t.cfg, r, tick.now), tick, map[], i);
  }

  lemma LoadedBadUse(fac: Factory, name: string, bd: BlockDesc, i: nat)
    requires FactoryOk(fac) && KeysDistinct(bd) && Load(fac, name, bd).Accepted?
    requires i < |bd.blocks| && UseDisagrees(fac, bd, bd.blocks[i])
    ensures var t := Load(fac, name, bd).value;
            i < |t.cfg.children| && BadUse(t.cfg.children[i], t.st.children[i], t.st.vars)
  {
    hide Load, BadUse, UseDisagrees, ChildWired, Pristine, FeedUnique, Feeds, Uses;
    LoadedGood(fac, name, bd);
    LoadIsDescribed(fac, name, bd);
    var t := Load(fac, name, bd).value;
    DisagreeingUseIsBad(fac, bd, t.cfg, t.st, i);
  }

  lemma DisagreeingEdgeIsBad(fac: Factory, bd: BlockDesc, cfg: Cfg, st: St, edge: Params, k: string)
    requires FactoryOk(fac) && Shape(cfg, st) && BodyReflects(fac, bd, cfg, st) && EdgeListed(cfg, st, edge)
    requires k in edge && !NameAgrees(fac, bd, k) && forall v <- st.vars :: !st.vars[v].locked
    ensures !Fits(st.vars, edge)
  {
    AgreesAtIff(fac, bd, cfg, st, k);
    var _ := edge[k];
  }

  /** Some power-on value of the block is for a name that does not agree. */
  ghost predicate OnDisagrees(fac: Factory, bd: BlockDesc) {
    exists k <- Listed(bd, "вкл") :: !NameAgrees(fac, bd, k)
  }

  /** At every depth: a block whose power-on values do not agree is off. */
  ghost predicate DisagreeingAreOff(fac: Factory, bd: BlockDesc, cfg: Cfg, st: St)
    requires Shape(cfg, st)
    decreases bd
  {
    forall i | 0 <= i < |bd.blocks| && i < |cfg.children| ::
      && (OnDisagrees(fac, bd.blocks[i].desc) ==> !st.children[i].power)
      && DisagreeingAreOff(fac, bd.blocks[i].desc, cfg.children[i], st.children[i])
  }

  lemma {:induction false} StuckAsDescribed(fac: Factory, bd: BlockDesc, cfg: Cfg, a: St, b: St)
    requires FactoryOk(fac) && Shape(cfg, a) && Shape(cfg, b) && Reflects(fac, bd, cfg, a) && PathWired(cfg, a)
    requires Pristine(cfg, a) && Framed(cfg, a, b) && StuckOff(cfg, b)
    ensures DisagreeingAreOff(fac, bd, cfg, b)
    decreases bd
  {
    hide Feeds, Uses, NameAgrees, GetVariable, Fits, DescFeeds, DescUses, ChildWired;
    forall i | 0 <= i < |bd.blocks|
      ensures OnDisagrees(fac, bd.blocks[i].desc) ==> !b.children[i].power
      ensures DisagreeingAreOff(fac, bd.blocks[i].desc, cfg.children[i], b.children[i])
    {
      StuckAsDescribed(fac, bd.blocks[i].desc, cfg.children[i], a.children[i], b.children[i]);
      StuckChild(fac, bd.blocks[i].desc, cfg.children[i], a.children[i], b.children[i]);
    }
  }

  lemma StuckChild(fac: Factory, bd: BlockDesc, cfg: Cfg, a: St, b: St)
    requires FactoryOk(fac) && Shape(cfg, a) && Shape(cfg, b) && Reflects(fac, bd, cfg, a) && PathWired(cfg, a)
    requires Pristine(cfg, a) && Framed(cfg, a, b) && MayBeOn(cfg, b)
    ensures OnDisagrees(fac, bd) ==> !b.power
  {
    hide Feeds, Uses, NameAgrees, GetVariable, Fits, DescFeeds, DescUses, ChildWired;
    if OnDisagrees(fac, bd) {
      var k :| k in Listed(bd, "вкл") && !NameAgrees(fac, bd, k);
      DisagreeingEdgeIsBad(fac, bd, cfg, a, cfg.on, k);
      FitsFramed(a.vars, b.vars, cfg.use.Keys, cfg.on);
    }
  }

  lemma {:induction false} StuckRun(env: Env, cfg: Cfg, st: St, ticks: seq<Tick>)
    requires Shape(cfg, st) && StuckOff(cfg, st)
    ensures StuckOff(cfg, Run(env, cfg, st, Steps(ticks)))
    decreases |ticks|
  {
    if ticks != [] {
      var acts := Steps(ticks);
      assert acts[..|acts| - 1] == Steps(ticks[..|ticks| - 1]);
      StuckRun(env, cfg, st, ticks[..|ticks| - 1]);
      var mid := Run(env, cfg, st, acts[..|acts| - 1]);
      CallStuck(env, cfg, PreCall(cfg, mid, ticks[|ticks| - 1].now), ticks[|ticks| - 1], map[]);
    }
  }

  /** In every state a loaded model reaches without commands, at every depth, a block with a power-on value
      for a name that does not agree is off. */
  lemma DisagreeingEdgeNeverOn(fac: Factory, name: string, bd: BlockDesc, env: Env, ticks: seq<Tick>)
    requires FactoryOk(fac) && KeysDistinct(bd) && Load(fac, name, bd).Accepted?
    ensures var t := Load(fac, name, bd).value;
            DisagreeingAreOff(fac, bd, t.cfg, Run(env, t.cfg, t.st, Steps(ticks)))
  {
    hide Load, FeedUnique;
    LoadedGood(fac, name, bd);
    LoadIsDescribed(fac, name, bd);
    var t := Load(fac, name, bd).value;
    PristineFacts(t.cfg, t.st);
    DarkIsStuck(t.cfg, t.st);
    StuckRun(env, t.cfg, t.st, ticks);
    FramedRun(env, t.cfg, t.st, ticks);
    StuckAsDescribed(fac, bd, t.cfg, t.st, Run(env, t.cfg, t.st, Steps(ticks)));
  }

  // ----- what commands do -----

  /** The two blocks differ below at most. */
  predicate SameOwn(a: St, b: St) {
    b == a.(children := b.children)
  }

  /** A command changes nothing of any block but the one at its path. */
  lemma {:induction false} CommandElsewhere(cfg: Cfg, st: St, path: seq<nat>, cmd: Command, p: seq<nat>)
    requires Shape(cfg, st) && ValidPath(cfg, p) && p != path
    ensures SameOwn(StAt(cfg, st, p), StAt(cfg, Apply(cfg, st, path, cmd), p))
    decreases cfg
  {
    if path != [] && path[0] < |cfg.children| {
      if p != [] && p[0] == path[0] {
        var i := p[0];
        assert p == [i] + p[1..] && path == [i] + path[1..];
        CommandElsewhere(cfg.children[i], st.children[i], path[1..], cmd, p[1..]);
      }
    } else if path == [] {
      assert p != [];
      assert Apply(cfg, st, path, cmd).children == st.children by { HereKeepsTypes(cfg, st, cmd); }
    }
  }

  /** What it does to that block. */
  predicate Commanded(cmd: Command, a: St, b: St) {
    match cmd
    case SetValue(n, v) =>
      && b == a.(vars := b.vars) && b.vars.Keys == a.vars.Keys
      && forall k <- a.vars ::
           b.vars[k] == if k == n && TypeOf(v) == TypeOf(a.vars[k].val) then Var(v, a.vars[k].locked) else a.vars[k]
    case LockVar(n, on) =>
      && b == a.(vars := b.vars) && b.vars.Keys == a.vars.Keys
      && forall k <- a.vars :: b.vars[k] == if k == n then Var(a.vars[k].val, on) else a.vars[k]
    case LockBlock(on) => b == a.(blocked := on)
    case LockSub(j, on) =>
      && b == a.(subs := b.subs) && |b.subs| == |a.subs|
      && forall i | 0 <= i < |a.subs| ::
           b.subs[i] == if i == j then SubSt(a.subs[i].last, a.subs[i].delta, on) else a.subs[i]
    case FetchErrors(max) =>
      && b == a.(errors := b.errors) && |b.errors| == (if max < |a.errors| then |a.errors| - max else 0)
      && forall i | 0 <= i < |b.errors| :: b.errors[i] == a.errors[|a.errors| - |b.errors| + i]
  }

  lemma {:induction false} CommandHere(cfg: Cfg, st: St, path: seq<nat>, cmd: Command)
    requires Shape(cfg, st) && ValidPath(cfg, path)
    ensures Commanded(cmd, StAt(cfg, st, path), StAt(cfg, Apply(cfg, st, path, cmd), path))
    decreases cfg
  {
    hide Commanded;
    if path == [] {
      HereIsCommanded(st, cmd);
    } else {
      CommandHere(cfg.children[path[0]], st.children[path[0]], path[1..], cmd);
    }
  }

  lemma HereIsCommanded(st: St, cmd: Command)
    ensures Commanded(cmd, st, ApplyHere(st, cmd))
  {
  }
}
