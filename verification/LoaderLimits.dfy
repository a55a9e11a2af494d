/** Configurations on which the loader's guarantees end: a wire that loads with the wrong type and the run
    it stops, an initial state that crashes decode, and a wire that power edges and USE copies break. */
module LoaderLimits {
  import opened Common
  import opened StringOrder
  import opened Values
  import opened Engine
  import opened Names
  import opened StepLog
  import opened Frame
  import opened Power
  import opened Soundness
  import opened Wires
  import opened WiringLimits
  import opened Loader
  import opened LoaderSoundness
  import opened Described
  import opened LoaderExact
  import opened LoaderAnswers
  import opened PlainNames
  import opened Runs
  import opened StepEnds
  import opened RunResults
  import Formula

  // ----- building blocks -----

  function OwnParam(ty: string, text: string): ParamDesc {
    ParamDesc(ty, text, "", "", [])
  }

  /** A block with one variable, no functions and at most the given children. */
  function OneParam(key: string, pd: ParamDesc, blocks: seq<NamedBlock>,
                    states: map<string, map<string, string>>): BlockDesc {
    BlockDesc(1.0, 0.0, [], map[key := pd], blocks, map[], states)
  }

  lemma OneParamAccepted(fac: Factory, key: string, pd: ParamDesc, blocks: seq<NamedBlock>,
                         states: map<string, map<string, string>>)
    requires var bd := OneParam(key, pd, blocks, states);
             && (forall i | 0 <= i < |blocks| :: DescAccepted(fac, blocks[i].desc) && blocks[i].desc.cond == [])
             && ParamOk(fac, bd, key) && forall s <- states :: StateReads(fac, bd, s)
    ensures DescAccepted(fac, OneParam(key, pd, blocks, states))
  {
    hide ParamOk, StateReads;
  }

  /** A variable of its own with a known type makes an acceptable block. */
  lemma LeafAccepted(fac: Factory, key: string, ty: string, text: string)
    requires ty in fac.types
    ensures DescAccepted(fac, OneParam(key, OwnParam(ty, text), [], map[]))
    ensures KeysDistinct(OneParam(key, OwnParam(ty, text), [], map[]))
  {
    OneParamAccepted(fac, key, OwnParam(ty, text), [], map[]);
  }

  lemma ExtractAV()
    ensures ExtractBlockName("a.v") == ("a", "v") && ExtractBlockName("v") == ("v", "") &&
            ExtractBlockName("x") == ("x", "")
  {
    assert Join("a", "v") == ['a', '.', 'v'] == "a.v";
    ExtractJoined("a", "v");
    ExtractPlain("v");
    ExtractPlain("x");
  }

  // ----- a wire of the wrong type -----

  function DottedBlock(ty1: string, ty2: string): BlockDesc {
    OneParam("a.v", OwnParam(ty1, ""), [NamedBlock("a", OneParam("v", OwnParam(ty2, ""), [], map[]))], map[])
  }

  /** Block c has a variable named a.v and a child a with a variable v; the root takes x from a.v. */
  function DottedDesc(ty1: string, ty2: string): BlockDesc {
    OneParam("x", ParamDesc("", "", "c", "a.v", []), [NamedBlock("c", DottedBlock(ty1, ty2))], map[])
  }

  lemma DottedOrigins(fac: Factory, ty1: string, ty2: string)
    ensures var c := DottedBlock(ty1, ty2);
            && OwnOrigin(c, "a.v") == Some(OwnParam(ty1, "")) && Origin(c, "a.v") == Some(OwnParam(ty2, ""))
            && OwnOrigin(DottedDesc(ty1, ty2), "x") == Some(OwnParam(ty2, ""))
  {
    ExtractAV();
    var c, a := DottedBlock(ty1, ty2), OneParam("v", OwnParam(ty2, ""), [], map[]);
    assert FindBlock(c.blocks, "a", 0) == Some(0);
    assert Origin(a, "v") == OwnOrigin(a, "v") == Some(OwnParam(ty2, ""));
    assert FindBlock(DottedDesc(ty1, ty2).blocks, "c", 0) == Some(0);
  }

  lemma DottedAccepted(fac: Factory, ty1: string, ty2: string)
    requires ty1 in fac.types && ty2 in fac.types
    ensures DescAccepted(fac, DottedDesc(ty1, ty2)) && KeysDistinct(DottedDesc(ty1, ty2))
  {
    hide DescAccepted, Origin, OwnOrigin;
    DottedOrigins(fac, ty1, ty2);
    LeafAccepted(fac, "v", ty2, "");
    var c := DottedBlock(ty1, ty2);
    OneParamAccepted(fac, "a.v", OwnParam(ty1, ""), c.blocks, map[]);
    assert FindBlock(DottedDesc(ty1, ty2).blocks, "c", 0) == Some(0);
    OneParamAccepted(fac, "x", ParamDesc("", "", "c", "a.v", []), [NamedBlock("c", c)], map[]);
  }

  lemma DottedFeed(ty1: string, ty2: string)
    ensures var ps := DottedDesc(ty1, ty2).params; DescFeeds(ps, ps.Keys) == {Wire("c", "a.v", "x")}
    ensures var ps := DottedDesc(ty1, ty2).params; DescUses(ps, ps.Keys) == {}
  {
    var ps := DottedDesc(ty1, ty2).params;
    assert ps.Keys == {"x"} && ps["x"].srcBlock == "c" && OrOwn("a.v", "x") == "a.v";
  }

  /** The configuration is accepted with a mistyped wire whenever the two types differ: the check of
      the loader looked at the variable below, the wire takes the one beside it. */
  lemma DottedNameLoadsMistyped(fac: Factory, ty1: string, ty2: string)
    requires FactoryOk(fac) && ty1 in fac.types && ty2 in fac.types && fac.types[ty1] != fac.types[ty2]
    ensures var l := Load(fac, "root", DottedDesc(ty1, ty2));
            && l.Accepted? && |l.value.cfg.children| == 1 && |l.value.st.children| == 1
            && Mistyped(l.value.cfg.children[0], l.value.st.children[0], l.value.st.vars, "x")
  {
    hide Load, DescAccepted, DescCrashes, Origin, OwnOrigin;
    var bd := DottedDesc(ty1, ty2);
    DottedAccepted(fac, ty1, ty2);
    LoadAnswers(fac, "root", bd);
    DottedOrigins(fac, ty1, ty2);
    DottedFeed(ty1, ty2);
    DisagreeingWireIsMistyped(fac, "root", bd, 0, Wire("c", "a.v", "x"));
  }

  /** A name that does not agree makes the wire from it mistyped. */
  lemma DisagreeingWireIsMistyped(fac: Factory, name: string, bd: BlockDesc, i: nat, w: Wire)
    requires FactoryOk(fac) && KeysDistinct(bd) && Load(fac, name, bd).Accepted? && i < |bd.blocks|
    requires w in DescFeeds(bd.params, bd.params.Keys) && w.block == bd.blocks[i].name
    requires !NameAgrees(fac, bd.blocks[i].desc, w.name)
    ensures var t := Load(fac, name, bd).value;
            && |t.cfg.children| == |t.st.children| == |bd.blocks|
            && Mistyped(t.cfg.children[i], t.st.children[i], t.st.vars, w.far)
  {
    hide Load, Feeds, Uses, DescFeeds, DescUses, NameAgrees, AgreesAt, Mistyped, PathWired, ChildWired, Pristine,
      FeedUnique;
    LoadedGood(fac, name, bd);
    LoadIsDescribed(fac, name, bd);
    var t := Load(fac, name, bd).value;
    WiresOfChild(bd, t.cfg.children, i);
    assert Reflects(fac, bd.blocks[i].desc, t.cfg.children[i], t.st.children[i]);
    AgreesAtIff(fac, bd.blocks[i].desc, t.cfg.children[i], t.st.children[i], w.name);
    ChildOfLoaded(t.cfg, t.st, i);
    DisagreeingEnd(t.cfg.children[i], t.st.children[i], t.st.vars, w.far);
  }

  lemma ChildOfLoaded(cfg: Cfg, st: St, i: nat)
    requires Shape(cfg, st) && PathWired(cfg, st) && Pristine(cfg, st) && i < |cfg.children|
    ensures ChildWired(cfg.children[i], st.children[i], st.vars) && PathWired(cfg.children[i], st.children[i])
    ensures Pristine(cfg.children[i], st.children[i]) && forall k <- st.vars :: !st.vars[k].locked
  {
  }

  lemma DisagreeingEnd(cc: Cfg, c: St, vars: Vars, d: string)
    requires Shape(cc, c) && ChildWired(cc, c, vars) && d in cc.ret && !AgreesAt(cc, c, cc.ret[d])
    requires forall k <- vars :: !vars[k].locked
    ensures Mistyped(cc, c, vars, d)
  {
  }

  /** In every step of every run of a loaded model: when a child with a disagreeing return wire into an
      unlocked variable is called and returns, the step is stopped there by a bad_cast no handler takes. */
  lemma DisagreeingWireStopsStep(fac: Factory, name: string, bd: BlockDesc, env: Env, acts: seq<Action>, tick: Tick,
                                 i: nat, w: Wire, n: nat)
    requires FactoryOk(fac) && KeysDistinct(bd) && Load(fac, name, bd).Accepted? && i < |bd.blocks|
    requires w in DescFeeds(bd.params, bd.params.Keys) && w.block == bd.blocks[i].name
    requires !NameAgrees(fac, bd.blocks[i].desc, w.name)
    requires var t := Load(fac, name, bd).value;
             var st := Run(env, t.cfg, t.st, acts);
             var log := CallLog(env, t.cfg, PreCall(t.cfg, st, tick.now), tick, map[]).2;
             && w.far in st.vars && !st.vars[w.far].locked
             && n < |log| && log[n].ref == Child(i) && log[n].branch == Called && log[n].out.Ok?
    ensures var t := Load(fac, name, bd).value;
            var st := Run(env, t.cfg, t.st, acts);
            && RootStep(env, t.cfg, st, tick).1 == Throw(BadCast)
            && n == |CallLog(env, t.cfg, PreCall(t.cfg, st, tick.now), tick, map[]).2| - 1
  {
    hide Load, CallLog, Mistyped, NameAgrees, DescFeeds;
    var t := Load(fac, name, bd).value;
    DisagreeingWireIsMistyped(fac, name, bd, i, w);
    RunSameTypes(env, t.cfg, t.st, acts);
    var r := Run(env, t.cfg, t.st, acts);
    MistypedKept(t.cfg.children[i], t.st.children[i], r.children[i], t.st.vars, r.vars, w.far);
    MistypedStops(env, t.cfg, PreCall(t.cfg, r, tick.now), tick, map[], i, w.far, n);
  }

  lemma MistypedKept(cc: Cfg, c: St, c1: St, a: Vars, b: Vars, d: string)
    requires Mistyped(cc, c, a, d) && VarTypes(c.vars) == VarTypes(c1.vars) && VarTypes(a) == VarTypes(b)
    requires d in b && !b[d].locked
    ensures Mistyped(cc, c1, b, d)
  {
    var s := cc.ret[d];
    assert s in VarTypes(c.vars) && VarTypes(c1.vars)[s] == VarTypes(c.vars)[s];
    assert d in VarTypes(a) && VarTypes(b)[d] == VarTypes(a)[d];
  }

  // ----- the run it stops -----

  /** A root over one due child: its step is the turn of that child. */
  ghost predicate OneChild(cfg: Cfg, st: St, time: real)
    requires Shape(cfg, st)
  {
    |cfg.children| == 1 && cfg.subs == [] && cfg.use == map[] && cfg.ret == map[] && Due(st.children[0], time)
  }

  function Begun(cfg: Cfg, st: St, now: real): St {
    var st0 := PreCall(cfg, st, now);
    st0.(plan := st0.plan + cfg.period)
  }

  lemma InsertOne(c: Cand)
    ensures InsertAll([], [c]) == [c]
  {
    assert [c][..0] == [];
    assert InsertAll([], [c][..0]) == [];
    assert Insert([], c) == [c];
  }

  lemma OneCandidate(cfg: Cfg, st: St, time: real)
    requires Shape(cfg, st) && OneChild(cfg, st, time)
    ensures Candidates(cfg, st, time) == [Cand(cfg.children[0].priority, Child(0))]
  {
    assert ChildCands(cfg, st, time, 0) == [];
    assert ChildCands(cfg, st, time, 1) == [Cand(cfg.children[0].priority, Child(0))];
  }

  lemma OneChildSchedule(cfg: Cfg, st: St, time: real)
    requires Shape(cfg, st) && OneChild(cfg, st, time)
    ensures Schedule(cfg, st, time) == [Child(0)]
  {
    hide InsertAll, Candidates;
    OneCandidate(cfg, st, time);
    InsertOne(Cand(cfg.children[0].priority, Child(0)));
  }

  lemma RunOne(env: Env, cfg: Cfg, st: St, ref: Ref, tick: Tick, up: Params)
    requires Shape(cfg, st) && ValidRef(cfg, ref)
    ensures var (r, o, e) := RunObj(env, cfg, st, ref, tick, up); RunObjs(env, cfg, st, [ref], tick, up) == (r, o, [e])
  {
    hide RunObj;
    var (r, o, e) := RunObj(env, cfg, st, ref, tick, up);
    assert [ref][1..] == [];
    assert RunObjs(env, cfg, r, [ref][1..], tick, up) == (r, Ok(()), []);
    assert o.Ok? ==> o.value == ();
    assert [e] + [] == [e];
  }

  lemma OneChildStep(env: Env, cfg: Cfg, st: St, tick: Tick)
    requires Shape(cfg, st) && OneChild(cfg, st, tick.time)
    ensures var st1 := Begun(cfg, st, tick.now);
            var (r, o, _) := RunObj(env, cfg, st1, Child(0), tick, map[]);
            RootStep(env, cfg, st, tick) == (r.(errBlocks := {}), if o.Throw? then Throw(o.exn) else Ok(map[]))
  {
    hide RunObj, RunObjs, Schedule;
    var none: Params := map[];
    var st0, st1 := PreCall(cfg, st, tick.now), Begun(cfg, st, tick.now);
    assert SortedKeys(cfg.use.Keys) == [];
    assert Begin(cfg, st0, none) == (st1, Ok(()));
    OneChildSchedule(cfg, st1, tick.time);
    RunOne(env, cfg, st1, Child(0), tick, none);
    var (r, o, e) := RunObj(env, cfg, st1, Child(0), tick, none);
    assert CallLog(env, cfg, st0, tick, none) == (r, o, [e]);
    assert Collect(r.vars, cfg.ret) == Ok(none) by { assert Through(cfg.ret, Vals(r.vars)) == none; }
  }

  /** The first turn of an unconditioned child is its rising edge. */
  function Risen(cc: Cfg, c: St, now: real): (r: St)
    requires Shape(cc, c)
    ensures Shape(cc, r)
  {
    Touch(cc, WriteEdge(cc, c, cc.on).0, now).(power := true, errBlocks := {})
  }

  lemma RisingTurn(env: Env, cfg: Cfg, st: St, tick: Tick)
    requires Shape(cfg, st) && OneChild(cfg, st, tick.time) && cfg.children[0].cond == [] && !st.children[0].power
    requires WriteEdge(cfg.children[0], st.children[0], cfg.children[0].on).1.Ok?
    ensures RootStep(env, cfg, st, tick).0.children == [Risen(cfg.children[0], st.children[0], tick.now)]
    ensures var m := WriteEdge(cfg.children[0], st.children[0], cfg.children[0].on).1.value;
            m == map[] ==> RootStep(env, cfg, st, tick).1 == Ok(map[]) && RootStep(env, cfg, st, tick).0.vars == st.vars
  {
    hide RunObj, RootStep, WriteFrom;
    var st1 := Begun(cfg, st, tick.now);
    var cc, c := cfg.children[0], st.children[0];
    OneChildStep(env, cfg, st, tick);
    RisingGuard(env, cc, c, Vals(st1.vars), tick);
    RunChildOutcome(env, cfg, st1, 0, tick, map[]);
    RunObjLocal(env, cfg, st1, Child(0), tick, map[]);
    var m := WriteEdge(cc, c, cc.on).1.value;
    if m == map[] { SilentTurn(env, cfg, st1, 0, tick, map[]); }
  }

  lemma RisingGuard(env: Env, cc: Cfg, c: St, vals: Params, tick: Tick)
    requires Shape(cc, c) && cc.cond == [] && !c.power && WriteEdge(cc, c, cc.on).1.Ok?
    ensures GuardChild(env, cc, c, vals, tick) ==
            (Touch(cc, WriteEdge(cc, c, cc.on).0, tick.now).(power := true), PoweredOn, WriteEdge(cc, c, cc.on).1)
  {
  }

  /** A child that returns nothing changes no variable of the block. */
  lemma SilentTurn(env: Env, cfg: Cfg, st: St, i: nat, tick: Tick, up: Params)
    requires Shape(cfg, st) && i < |cfg.children|
    requires GuardChild(env, cfg.children[i], st.children[i], Vals(st.vars), tick).2 == Ok(map[])
    ensures RunObj(env, cfg, st, Child(i), tick, up).1.Ok? && RunObj(env, cfg, st, Child(i), tick, up).0.vars == st.vars
  {
    var none: Params := map[];
    assert SortedKeys(none.Keys) == [];
    assert Write(st.vars, none) == (st.vars, Ok({}));
  }

  /** Whatever a child needs so that its call returns. */
  ghost predicate Callable(env: Env, cc: Cfg, c: St, upTypes: map<string, Ty>)
    requires Shape(cc, c)
  {
    && WellWired(cc, c) && OnlyBenign(cc, c) && RespectsTypes(env, cc, c, upTypes)
    && WiresTyped(cc.use, VarTypes(c.vars), upTypes) && cc.ret.Values <= c.vars.Keys
  }

  lemma CallableFramed(env: Env, cc: Cfg, a: St, b: St, upTypes: map<string, Ty>)
    requires Shape(cc, a) && Shape(cc, b) && Framed(cc, a, b) && Callable(env, cc, a, upTypes) && OnlyBenign(cc, b)
    ensures Callable(env, cc, b, upTypes)
  {
    WellWiredFramed(cc, a, b);
    RespectsTypesFramed(env, cc, a, b, upTypes);
  }

  /** The turn of a child that is on, callable and mistyped stops the step. */
  lemma MistypedTurnStops(env: Env, cfg: Cfg, st: St, d: string, tick: Tick)
    requires Shape(cfg, st) && OneChild(cfg, st, tick.time) && cfg.children[0].cond == [] && st.children[0].power
    requires Callable(env, cfg.children[0], st.children[0], VarTypes(st.vars))
    requires Mistyped(cfg.children[0], st.children[0], st.vars, d)
    ensures RootStep(env, cfg, st, tick).1 == Throw(BadCast)
  {
    hide WellWired, RespectsTypes, OnlyBenign, Mistyped, RunObj, RootStep, Call;
    var none: Params := map[];
    var st1 := Begun(cfg, st, tick.now);
    var cc, c, vals := cfg.children[0], st.children[0], Vals(st.vars);
    OneChildStep(env, cfg, st, tick);
    assert TypesOf(vals) == VarTypes(st.vars);
    var c0 := PreCall(cc, c, tick.now);
    OwnFramed(cc, c, c0);
    SameBenign(cc, c, c0);
    CallableFramed(env, cc, c, c0, VarTypes(st.vars));
    CallSound(env, cc, c0, tick, vals);
    assert GuardChild(env, cc, c, vals, tick).1 == Called && GuardChild(env, cc, c, vals, tick).2.Ok?;
    MistypedWireEscapes(env, cfg, st1, 0, d, tick, none);
  }

  /** A callable child without power-on values stays so over its rising edge, and is planned at once. */
  lemma RisenIsCallable(env: Env, cc: Cfg, c: St, now: real, upTypes: map<string, Ty>)
    requires Shape(cc, c) && Callable(env, cc, c, upTypes) && cc.on == map[]
    ensures WriteEdge(cc, c, cc.on) == (c, Ok(map[]))
    ensures var r := Risen(cc, c, now);
            && Callable(env, cc, r, upTypes) && r.vars == c.vars && r.power && r.blocked == c.blocked &&
                 r.plan == now - cc.birth
  {
    hide WellWired, RespectsTypes, OnlyBenign;
    assert SortedKeys(cc.on.Keys) == [];
    assert EdgeReturn(cc.ret, cc.on, {}) == map[];
    var c1 := Touch(cc, c, now);
    var r := Risen(cc, c, now);
    TouchFramed(cc, c, now);
    TouchBenign(cc, c, now);
    OwnFramed(cc, c1, r);
    SameBenign(cc, c1, r);
    FramedTrans(cc, c, c1, r);
    CallableFramed(env, cc, c, r, upTypes);
  }

  /** A description of one block without functions of its own, whose only child is unconditioned and has a
      sound inside. */
  ghost predicate OneBlock(env: Env, fac: Factory, bd: BlockDesc) {
    && |bd.blocks| == 1 && bd.subs == map[]
    && var cd := bd.blocks[0].desc;
    && cd.cond == [] && DescAgrees(fac, cd) && DescRespects(env, fac, cd, DescTypes(fac, bd))
    && forall u <- DescUses(bd.params, bd.params.Keys) :: u.block == bd.blocks[0].name ==> NameAgrees(fac, cd, u.name)
  }

  lemma OneBlockLoads(fac: Factory, name: string, bd: BlockDesc, env: Env)
    requires FactoryOk(fac) && KeysDistinct(bd) && Load(fac, name, bd).Accepted? && OneBlock(env, fac, bd)
    ensures var t := Load(fac, name, bd).value;
            && |t.cfg.children| == 1 && t.cfg.subs == [] && t.cfg.use == map[] && t.cfg.ret == map[]
            && var cc, c := t.cfg.children[0], t.st.children[0];
            && cc.cond == [] && cc.birth == fac.birth && c.plan == 0.0 && !c.blocked && !c.power
            && Callable(env, cc, c, VarTypes(t.st.vars))
            && cc.on.Keys == Listed(bd.blocks[0].desc, POWER_ON).Keys
  {
    hide Load, Feeds, Uses, DescFeeds, DescUses, NameAgrees, DescAgrees, DescRespects, WellWired, RespectsTypes;
    hide PathWired, ChildWired, KeyReads, ReadAs, FeedUnique;
    LoadedGood(fac, name, bd);
    LoadIsDescribed(fac, name, bd);
    var t := Load(fac, name, bd).value;
    var cc, c, cd := t.cfg.children[0], t.st.children[0], bd.blocks[0].desc;
    assert SortedKeys(bd.subs.Keys) == [];
    ChildOfLoaded(t.cfg, t.st, 0);
    assert Reflects(fac, cd, cc, c) && KeysDistinct(cd);
    TypesAreDescribed(fac, bd, t.cfg, t.st);
    ChildIsCallable(env, fac, bd, t.cfg, t.st);
  }

  lemma ChildIsCallable(env: Env, fac: Factory, bd: BlockDesc, cfg: Cfg, st: St)
    requires FactoryOk(fac) && KeysDistinct(bd) && OneBlock(env, fac, bd) && Shape(cfg, st) &&
             BodyReflects(fac, bd, cfg, st)
    requires ChildWired(cfg.children[0], st.children[0], st.vars)
    requires PathWired(cfg.children[0], st.children[0]) && Pristine(cfg.children[0], st.children[0])
    ensures Callable(env, cfg.children[0], st.children[0], VarTypes(st.vars))
  {
    hide Feeds, Uses, DescFeeds, DescUses, NameAgrees, AgreesAt, DescAgrees, DescRespects, WellWired, RespectsTypes;
    hide PathWired, Pristine, KeyReads, ReadAs, GetVariable;
    var cc, c, cd := cfg.children[0], st.children[0], bd.blocks[0].desc;
    TypesAreDescribed(fac, bd, cfg, st);
    WellWiredIffDottedAgree(cc, c);
    DottedAgreeIff(fac, cd, cc, c);
    RespectsIff(env, fac, cd, cc, c, VarTypes(st.vars));
    PristineFacts(cc, c);
    UseTypedIff(cc, c, st.vars);
    WiresOfChild(bd, cfg.children, 0);
    forall n | n in cc.use ensures AgreesAt(cc, c, n) {
      AgreesAtIff(fac, cd, cc, c, n);
    }
    forall d | d in cc.ret ensures cc.ret[d] in c.vars {}
  }

  /** One of its feeding wires does not agree, and there are no power-on values: the first step of the
      model switches the child on, and the second is stopped by a bad_cast. */
  lemma DisagreeingWireStopsRun(fac: Factory, name: string, bd: BlockDesc, env: Env, w: Wire, t1: Tick, t2: Tick)
    requires FactoryOk(fac) && KeysDistinct(bd) && Load(fac, name, bd).Accepted? && OneBlock(env, fac, bd)
    requires Listed(bd.blocks[0].desc, POWER_ON) == map[]
    requires w in DescFeeds(bd.params, bd.params.Keys) && w.block == bd.blocks[0].name
    requires !NameAgrees(fac, bd.blocks[0].desc, w.name)
    requires t1.time > 0.0 && t2.time > t1.now - fac.birth
    ensures var t := Load(fac, name, bd).value;
            var (s1, o1) := RootStep(env, t.cfg, t.st, t1);
            o1 == Ok(map[]) && RootStep(env, t.cfg, s1, t2).1 == Throw(BadCast)
  {
    hide Load, RootStep, DescFeeds, DescUses, NameAgrees, DescAgrees, DescRespects, Callable, Risen, WriteEdge;
    var t := Load(fac, name, bd).value;
    OneBlockLoads(fac, name, bd, env);
    var cc, c := t.cfg.children[0], t.st.children[0];
    DisagreeingWireIsMistyped(fac, name, bd, 0, w);
    RisenIsCallable(env, cc, c, t1.now, VarTypes(t.st.vars));
    RisingTurn(env, t.cfg, t.st, t1);
    MistypedTurnStops(env, t.cfg, RootStep(env, t.cfg, t.st, t1).0, w.far, t2);
  }

  lemma DottedIsOneBlock(env: Env, fac: Factory, ty1: string, ty2: string)
    ensures OneBlock(env, fac, DottedDesc(ty1, ty2)) && Listed(DottedBlock(ty1, ty2), POWER_ON) == map[]
  {
    hide DescTypes, NameAgrees;
    DottedFeed(ty1, ty2);
    var cd := DottedBlock(ty1, ty2);
    assert cd.params.Keys == {"a.v"} && cd.params["a.v"].dests == [];
    assert Wirings(cd) == {};
    assert DescAgrees(fac, cd.blocks[0].desc) && DescRespects(env, fac, cd.blocks[0].desc, DescTypes(fac, cd));
  }

  /** So is every run of the dotted configuration that goes that far. */
  lemma DottedRunStops(fac: Factory, ty1: string, ty2: string, env: Env, t1: Tick, t2: Tick)
    requires FactoryOk(fac) && ty1 in fac.types && ty2 in fac.types && fac.types[ty1] != fac.types[ty2]
    requires t1.time > 0.0 && t2.time > t1.now - fac.birth
    ensures var l := Load(fac, "root", DottedDesc(ty1, ty2));
            && l.Accepted?
            && var (s1, o1) := RootStep(env, l.value.cfg, l.value.st, t1);
            && o1 == Ok(map[]) && RootStep(env, l.value.cfg, s1, t2).1 == Throw(BadCast)
  {
    hide Load, RootStep, DescAccepted, DescCrashes, Origin, OwnOrigin, DescTypes;
    var bd := DottedDesc(ty1, ty2);
    DottedAccepted(fac, ty1, ty2);
    LoadAnswers(fac, "root", bd);
    DottedOrigins(fac, ty1, ty2);
    DottedFeed(ty1, ty2);
    DottedIsOneBlock(env, fac, ty1, ty2);
    DisagreeingWireStopsRun(fac, "root", bd, env, Wire("c", "a.v", "x"), t1, t2);
  }

  // ----- an initial state that crashes decode -----

  /** A block without children whose only variable has something after a dot in its name, with an initial
      state for it: decode follows a null pointer. */
  lemma DottedStateCrashes(fac: Factory, key: string, ty: string, text: string)
    requires FactoryOk(fac) && ty in fac.types && !Plain(key)
    ensures Load(fac, "root", OneParam(key, OwnParam(ty, ""), [], map[POWER_ON := map[key := text]])).Crashed?
  {
    hide Load, DescAccepted;
    var bd := OneParam(key, OwnParam(ty, ""), [], map[POWER_ON := map[key := text]]);
    assert Joins(fac, bd) by {
      assert ParamOk(fac, bd, key);
    }
    assert KeyDangles(bd, key);
    forall k ensures !Less(k, k) { if Less(k, k) { LessAsymmetric(k, k); } }
    assert StateCrashes(fac, bd, POWER_ON) by { assert key in bd.states[POWER_ON]; }
    assert StatesCrash(fac, bd);
    LoadAnswers(fac, "root", bd);
  }

  // ----- a wire that edges and copies break -----

  function FedBlock(ty: string, text: string): BlockDesc {
    OneParam("x", ParamDesc("", "", "c", "v", []), [NamedBlock("c", OneParam("v", OwnParam(ty, ""), [], map[]))],
             map[POWER_ON := map["x" := text], POWER_OFF := map["x" := text]])
  }

  /** Block b takes x from its child c and lists it in both its initial states; the root also sends its own
      variable y there.  All three give x the text. */
  function EdgeDesc(ty: string, text: string): BlockDesc {
    OneParam("y", ParamDesc(ty, text, "", "", [Dest("b", "x")]), [NamedBlock("b", FedBlock(ty, text))], map[])
  }

  lemma EdgeOrigins(ty: string, text: string)
    ensures var b := FedBlock(ty, text);
            && OwnOrigin(b, "x") == Some(OwnParam(ty, "")) && Origin(b, "x") == Some(OwnParam(ty, ""))
            && OwnOrigin(EdgeDesc(ty, text), "y") == Some(ParamDesc(ty, text, "", "", [Dest("b", "x")]))
            && OwnOrigin(OneParam("v", OwnParam(ty, ""), [], map[]), "v") == Some(OwnParam(ty, ""))
            && Origin(OneParam("v", OwnParam(ty, ""), [], map[]), "v") == Some(OwnParam(ty, ""))
  {
    ExtractAV();
    var b, c := FedBlock(ty, text), OneParam("v", OwnParam(ty, ""), [], map[]);
    assert Origin(c, "v") == OwnOrigin(c, "v") == Some(OwnParam(ty, ""));
    assert FindBlock(b.blocks, "c", 0) == Some(0);
    assert Origin(b, "x") == OwnOrigin(b, "x");
  }

  lemma EdgeAccepted(fac: Factory, ty: string, text: string)
    requires FactoryOk(fac) && ty in fac.types && fac.parse(fac.types[ty], text).Some?
    ensures DescAccepted(fac, EdgeDesc(ty, text)) && KeysDistinct(EdgeDesc(ty, text))
  {
    hide DescAccepted, Origin, OwnOrigin;
    EdgeOrigins(ty, text);
    LeafAccepted(fac, "v", ty, "");
    var b := FedBlock(ty, text);
    assert FindBlock(b.blocks, "c", 0) == Some(0);
    StartTyped(fac, Origin(b, "x"));
    assert ParamOk(fac, b, "x");
    OneParamAccepted(fac, "x", b.params["x"], b.blocks, b.states);
    var r := EdgeDesc(ty, text);
    assert FindBlock(r.blocks, "b", 0) == Some(0);
    assert ParamOk(fac, r, "y");
    OneParamAccepted(fac, "y", r.params["y"], r.blocks, map[]);
  }

  lemma EdgeIsPlain(ty: string, text: string)
    ensures PlainDesc(EdgeDesc(ty, text))
  {
    ExtractAV();
    ExtractPlain("y");
    var r, b := EdgeDesc(ty, text), FedBlock(ty, text);
    assert PlainParam("y", r.params["y"]) && PlainParam("x", b.params["x"]);
    assert PlainDesc(b.blocks[0].desc) && PlainDesc(b);
  }

  lemma EdgeWirings(ty: string, text: string)
    ensures var ps := EdgeDesc(ty, text).params;
            DescFeeds(ps, ps.Keys) == {} && DescUses(ps, ps.Keys) == {Wire("b", "x", "y")}
    ensures var ps := FedBlock(ty, text).params;
            DescFeeds(ps, ps.Keys) == {Wire("c", "v", "x")} && DescUses(ps, ps.Keys) == {}
  {
    var ps, qs := EdgeDesc(ty, text).params, FedBlock(ty, text).params;
    assert ps.Keys == {"y"} && ps["y"].srcBlock == "" && ps["y"].dests == [Dest("b", "x")] && OrOwn("x", "y") == "x";
    assert qs.Keys == {"x"} && qs["x"].srcBlock == "c" && OrOwn("v", "x") == "v";
  }

  /** What block b of that configuration looks like once loaded: its wire joins x to v, x is in both edge
      lists with value w and copied from y, which has value w as well; x and v start as v0. */
  ghost predicate FedAndListed(cfg: Cfg, st: St, w: Value, v0: Value) {
    && |cfg.children| == |st.children| == 1
    && cfg.children[0].children == [] && cfg.children[0].ret == map["x" := "v"] && cfg.children[0].off == map[]
    && cfg.use == map["x" := "y"] && cfg.on == map["x" := w] && cfg.off == map["x" := w]
    && st.vars.Keys == {"x"} && !st.vars["x"].locked && st.vars["x"].val == v0
    && st.children[0].vars.Keys == {"v"} && st.children[0].vars["v"].val == v0
  }

  lemma SingleEdge(edge: Params, k: string, v: Value)
    requires edge.Keys == {k} && edge[k] == v
    ensures edge == map[k := v]
  {
  }

  lemma SingleWires(m: map<string, string>, k: string, v: string)
    requires (k in m && m[k] == v) && forall j :: j in m ==> j == k
    ensures m == map[k := v]
  {
  }

  lemma FedEdge(fac: Factory, ty: string, text: string, edge: Params, w: Value)
    requires FactoryOk(fac) && ty in fac.types && fac.parse(fac.types[ty], text) == Some(w)
    requires EdgeReflects(fac, FedBlock(ty, text), map["x" := text], edge)
    ensures edge == map["x" := w]
  {
    hide Origin, OwnOrigin;
    EdgeOrigins(ty, text);
    StartTyped(fac, Origin(FedBlock(ty, text), "x"));
    SingleEdge(edge, "x", w);
  }

  lemma SourceBlockReflects(fac: Factory, ty: string, cfg: Cfg, st: St)
    requires ty in fac.types && Shape(cfg, st) && Reflects(fac, OneParam("v", OwnParam(ty, ""), [], map[]), cfg, st)
    ensures cfg.children == [] && cfg.off == map[]
    ensures st.vars.Keys == {"v"} && st.vars["v"].val == Initial(fac, fac.types[ty], "")
  {
    hide Origin, OwnOrigin, Feeds, Uses, DescFeeds, DescUses;
    var cd := OneParam("v", OwnParam(ty, ""), [], map[]);
    EdgeOrigins(ty, "");
    assert cd.params.Keys == {"v"};
    assert Start(fac, OwnOrigin(cd, "v")) == Some(st.vars["v"].val);
  }

  lemma FedBlockReflects(fac: Factory, ty: string, text: string, cfg: Cfg, st: St, w: Value)
    requires FactoryOk(fac) && ty in fac.types && fac.parse(fac.types[ty], text) == Some(w) && Shape(cfg, st)
    requires Reflects(fac, FedBlock(ty, text), cfg, st) && (forall k <- st.vars :: !st.vars[k].locked)
    requires cfg.use == map["x" := "y"]
    ensures FedAndListed(cfg, st, w, Initial(fac, fac.types[ty], ""))
  {
    hide Origin, OwnOrigin, Feeds, Uses, DescFeeds, DescUses, EdgeReflects;
    var b := FedBlock(ty, text);
    EdgeOrigins(ty, text);
    EdgeWirings(ty, text);
    WiresOfChild(b, cfg.children, 0);
    var cc := cfg.children[0];
    assert b.params.Keys == {"x"} && Start(fac, OwnOrigin(b, "x")) == Some(st.vars["x"].val);
    SourceBlockReflects(fac, ty, cc, st.children[0]);
    SingleWires(cc.ret, "x", "v");
    assert Listed(b, POWER_ON) == map["x" := text] && Listed(b, POWER_OFF) == map["x" := text];
    FedEdge(fac, ty, text, cfg.on, w);
    FedEdge(fac, ty, text, cfg.off, w);
  }

  /** What the three events leave of the wire of such a block. */
  lemma EventsBreakWire(cfg: Cfg, st: St, w: Value, v0: Value, up: Params, now: real)
    requires Shape(cfg, st) && FedAndListed(cfg, st, w, v0) && WellWired(cfg, st) && OnlyBenign(cfg, st)
    requires "y" in up && up["y"] == w && TypeOf(w) == TypeOf(v0)
    ensures WriteEdge(cfg, st, cfg.on).1.Ok? && PowerOff(cfg, st).1.Ok? && Begin(cfg, st, up).1.Ok?
    ensures WireHolds(cfg, st, 0, "x")
    ensures WireHolds(cfg, Touch(cfg, WriteEdge(cfg, st, cfg.on).0, now), 0, "x") <==> w == v0
    ensures WireHolds(cfg, PowerOff(cfg, st).0, 0, "x") <==> w == v0
    ensures WireHolds(cfg, Begin(cfg, st, up).0, 0, "x") <==> w == v0
  {
    hide PowerOffFrom, WriteFrom, WriteEdge, CopyUseFrom;
    WriteEdgeOk(cfg, st, cfg.on);
    PowerOffSound(cfg, st, 0);
    WiredCopyUseOk(st.vars, SortedKeys(cfg.use.Keys), cfg.use, up);
    RisingEdgeIff(cfg, st, 0, "x", now);
    EdgeOverridesWire(cfg, st, 0, "x");
    UseCopyIff(cfg, st, 0, "x", up);
  }

  lemma EdgeLoads(fac: Factory, ty: string, text: string, w: Value)
    requires FactoryOk(fac) && ty in fac.types && fac.parse(fac.types[ty], text) == Some(w)
    ensures var l := Load(fac, "root", EdgeDesc(ty, text));
            && l.Accepted? && |l.value.cfg.children| == 1
            && var (cb, sb) := (l.value.cfg.children[0], l.value.st.children[0]);
            && FedAndListed(cb, sb, w, Initial(fac, fac.types[ty], "")) && WellWired(cb, sb) && OnlyBenign(cb, sb)
            && cb.cond == [] && !sb.power && !sb.blocked && sb.plan == 0.0
            && "y" in l.value.st.vars && l.value.st.vars["y"].val == w
            && l.value.cfg.subs == [] && l.value.cfg.use == map[] && l.value.cfg.ret == map[]
  {
    hide Load, DescAccepted, DescCrashes, Origin, OwnOrigin, Feeds, Uses, DescFeeds, DescUses, FedAndListed, PlainDesc;
    hide DescAgrees, SourcesAgree, PathWired, FeedUnique, WellWired;
    var bd := EdgeDesc(ty, text);
    EdgeAccepted(fac, ty, text);
    LoadAnswers(fac, "root", bd);
    LoadedGood(fac, "root", bd);
    LoadIsDescribed(fac, "root", bd);
    var t := Load(fac, "root", bd).value;
    EdgeOrigins(ty, text);
    EdgeWirings(ty, text);
    WiresOfChild(bd, t.cfg.children, 0);
    var cb, sb := t.cfg.children[0], t.st.children[0];
    SingleWires(cb.use, "x", "y");
    assert Reflects(fac, bd.blocks[0].desc, cb, sb) && SortedKeys(bd.subs.Keys) == [];
    ChildOfLoaded(t.cfg, t.st, 0);
    assert forall k <- sb.vars :: !sb.vars[k].locked;
    FedBlockReflects(fac, ty, text, cb, sb, w);
    EdgeWellWired(fac, ty, text, t);
  }

  lemma EdgeWellWired(fac: Factory, ty: string, text: string, t: Tree)
    requires FactoryOk(fac) && KeysDistinct(EdgeDesc(ty, text)) && Load(fac, "root", EdgeDesc(ty, text)) == Accepted(t)
    ensures forall i | 0 <= i < |t.cfg.children| ::
              WellWired(t.cfg.children[i], t.st.children[i]) && OnlyBenign(t.cfg.children[i], t.st.children[i])
  {
    hide Load, DescAgrees, SourcesAgree, PathWired, FeedUnique, PlainDesc;
    EdgeIsPlain(ty, text);
    LoadedPlain(fac, "root", EdgeDesc(ty, text));
    LoaderSoundIff(fac, "root", EdgeDesc(ty, text));
    PristineFacts(t.cfg, t.st);
  }

  /** The wire of the loaded block holds; the rising edge, the falling edge and the USE copy each break it
      unless the text happens to be the start value of its source. */
  lemma EdgesBreakLoadedWire(fac: Factory, ty: string, text: string, w: Value, now: real)
    requires FactoryOk(fac) && ty in fac.types && fac.parse(fac.types[ty], text) == Some(w)
    ensures var l := Load(fac, "root", EdgeDesc(ty, text));
            var v0 := Initial(fac, fac.types[ty], "");
            && l.Accepted? && |l.value.cfg.children| == 1
            && var (cb, sb) := (l.value.cfg.children[0], l.value.st.children[0]);
            && |cb.children| == 1 && "x" in cb.children[0].ret && WireHolds(cb, sb, 0, "x")
            && (WireHolds(cb, Touch(cb, WriteEdge(cb, sb, cb.on).0, now), 0, "x") <==> w == v0)
            && (WireHolds(cb, PowerOff(cb, sb).0, 0, "x") <==> w == v0)
            && (WireHolds(cb, Begin(cb, sb, Vals(l.value.st.vars)).0, 0, "x") <==> w == v0)
  {
    hide Load, WellWired, OnlyBenign, Touch, WriteEdge, PowerOff, Begin;
    EdgeLoads(fac, ty, text, w);
    var t := Load(fac, "root", EdgeDesc(ty, text)).value;
    assert TypedParse(fac, fac.types[ty], text) && TypedParse(fac, fac.types[ty], "");
    EventsBreakWire(t.cfg.children[0], t.st.children[0], w, Initial(fac, fac.types[ty], ""), Vals(t.st.vars), now);
  }

  /** One step of the model suffices for it. */
  lemma FirstStepBreaksWire(fac: Factory, ty: string, text: string, w: Value, env: Env, tick: Tick)
    requires FactoryOk(fac) && ty in fac.types && fac.parse(fac.types[ty], text) == Some(w) && tick.time > 0.0
    ensures var l := Load(fac, "root", EdgeDesc(ty, text));
            && l.Accepted? && |l.value.cfg.children| == 1
            && var cb := l.value.cfg.children[0];
            && |cb.children| == 1 && "x" in cb.children[0].ret
            && (WireHolds(cb, RootStep(env, l.value.cfg, l.value.st, tick).0.children[0], 0, "x") <==>
                w == Initial(fac, fac.types[ty], ""))
  {
    hide Load, WellWired, OnlyBenign, WriteFrom, PowerOff, Begin, RootStep;
    EdgeLoads(fac, ty, text, w);
    var t := Load(fac, "root", EdgeDesc(ty, text)).value;
    assert TypedParse(fac, fac.types[ty], text) && TypedParse(fac, fac.types[ty], "");
    EventsBreakWire(t.cfg.children[0], t.st.children[0], w, Initial(fac, fac.types[ty], ""), Vals(t.st.vars), tick.now);
    RisingTurn(env, t.cfg, t.st, tick);
    var cb, sb := t.cfg.children[0], t.st.children[0];
    var touched := Touch(cb, WriteEdge(cb, sb, cb.on).0, tick.now);
    var r := RootStep(env, t.cfg, t.st, tick).0.children[0];
    assert r.vars == touched.vars && r.children == touched.children;
  }
}
