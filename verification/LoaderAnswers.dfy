/** decode's three answers, read off the configuration: exactly when it accepts, and exactly when it
    crashes instead of refusing. */
module LoaderAnswers {
  import opened Common
  import opened StringOrder
  import opened Values
  import opened Engine
  import opened Names
  import opened Loader
  import opened LoaderSoundness
  import opened Described
  import Formula

  // ----- what a variable must be -----

  /** The source is a value of a known type, or a variable of a child that a lookup finds and that
      bears the name itself. */
  predicate SourceOk(fac: Factory, bd: BlockDesc, key: string)
    requires key in bd.params
  {
    var pd := bd.params[key];
    if pd.srcBlock == "" then pd.ty in fac.types
    else
      match FindBlock(bd.blocks, pd.srcBlock, 0)
      case None => false
      case Some(i) => EndOk(bd.blocks[i].desc, if pd.srcName == "" then key else pd.srcName)
  }

  predicate EndOk(bd: BlockDesc, name: string) {
    name in bd.params && Origin(bd, name).Some?
  }

  /** A destination is such a variable too, and the one the lookup finds has the type of the source. */
  predicate DestOk(fac: Factory, bd: BlockDesc, key: string, ty: Ty, d: Dest) {
    match FindBlock(bd.blocks, d.block, 0)
    case None => false
    case Some(i) =>
      var name := if d.name == "" then key else d.name;
      && EndOk(bd.blocks[i].desc, name)
      && TypeAt(fac, Origin(bd.blocks[i].desc, name)) == Some(ty)
  }

  datatype Target = Target(block: string, name: string)

  function TargetOf(key: string, d: Dest): Target {
    Target(d.block, if d.name == "" then key else d.name)
  }

  predicate TargetsDiffer(key: string, ds: seq<Dest>) {
    forall i, j | 0 <= i < j < |ds| :: TargetOf(key, ds[i]) != TargetOf(key, ds[j])
  }

  predicate TargetsApart(params: map<string, ParamDesc>, j: string, k: string)
    requires j in params && k in params
  {
    forall d <- params[j].dests, e <- params[k].dests :: TargetOf(j, d) != TargetOf(k, e)
  }

  predicate ParamOk(fac: Factory, bd: BlockDesc, key: string)
    requires key in bd.params
  {
    && SourceOk(fac, bd, key) && TypeAt(fac, OwnOrigin(bd, key)).Some?
    && (forall d <- bd.params[key].dests :: DestOk(fac, bd, key, TypeAt(fac, OwnOrigin(bd, key)).value, d))
    && TargetsDiffer(key, bd.params[key].dests)
  }

  // ----- initial states -----

  /** A name decode takes for a variable, and get_variable finds nothing under it. */
  predicate KeyDangles(bd: BlockDesc, k: string) {
    k in bd.params && Origin(bd, k) == None
  }

  /** In a loaded tree the end of every lookup has a known type. */
  lemma {:induction false} OriginStarts(fac: Factory, bd: BlockDesc, cfg: Cfg, st: St, name: string)
    requires Shape(cfg, st) && BodyReflects(fac, bd, cfg, st)
    ensures Origin(bd, name).Some? <==> Start(fac, Origin(bd, name)).Some?
    decreases bd
  {
    var (h, t) := ExtractBlockName(name);
    if t != "" {
      match FindBlock(bd.blocks, h, 0)
      case None =>
      case Some(i) => OriginStarts(fac, bd.blocks[i].desc, cfg.children[i], st.children[i], t);
    }
  }

  /** The three ways one key can go. */
  lemma HeadKey(fac: Factory, bd: BlockDesc, tree: Tree, k: string, text: string)
    requires Shape(tree.cfg, tree.st) && BodyReflects(fac, bd, tree.cfg, tree.st)
    ensures var v := GetVariable(tree.cfg, tree.st, k);
            && (KeyDangles(bd, k) <==> k in bd.params && v.None?)
            && (KeyReads(fac, bd, k, text) <==> k in bd.params && v.Some? && fac.parse(TypeOf(v.value), text).Some?)
            && !(KeyDangles(bd, k) && KeyReads(fac, bd, k, text))
  {
    LookupIsDescribed(fac, bd, tree.cfg, tree.st, k);
    OriginStarts(fac, bd, tree.cfg, tree.st, k);
  }

  function Dangling(bd: BlockDesc): string -> bool {
    k => KeyDangles(bd, k)
  }

  function Reading(fac: Factory, bd: BlockDesc, texts: map<string, string>): string -> bool {
    k => k in texts && KeyReads(fac, bd, k, texts[k])
  }

  /** An initial state crashes on its first offending key, and is read if it has none. */
  lemma {:induction false} ReadStateIff(fac: Factory, bd: BlockDesc, tree: Tree, keys: seq<string>,
                                        texts: map<string, string>, setup: Params)
    requires Shape(tree.cfg, tree.st) && BodyReflects(fac, bd, tree.cfg, tree.st) && forall k <- keys :: k in texts
    ensures var r := ReadState(fac, tree, bd.params, keys, texts, setup);
            && (r.Crashed? <==> MeetsBad(keys, Dangling(bd), Reading(fac, bd, texts)))
            && (r.Accepted? <==> forall k <- keys :: KeyReads(fac, bd, k, texts[k]))
    decreases keys
  {
    hide BodyReflects, GetVariable, KeyReads, KeyDangles;
    if keys != [] {
      var k, rest := keys[0], keys[1..];
      assert keys == [k] + rest;
      HeadKey(fac, bd, tree, k, texts[k]);
      if KeyReads(fac, bd, k, texts[k]) {
        var v := GetVariable(tree.cfg, tree.st, k).value;
        ReadStateIff(fac, bd, tree, rest, texts, setup[k := fac.parse(TypeOf(v), texts[k]).value]);
      }
    }
  }

  /** In key order, the first name of the state that is not read is one that dangles. */
  predicate StateCrashes(fac: Factory, bd: BlockDesc, s: string)
    requires s in bd.states
  {
    && (s == "вкл" || s == "выкл")
    && exists k <- bd.states[s] ::
         KeyDangles(bd, k) && forall j <- bd.states[s] :: Less(j, k) ==> KeyReads(fac, bd, j, bd.states[s][j])
  }

  predicate StateReads(fac: Factory, bd: BlockDesc, s: string)
    requires s in bd.states
  {
    (s == "вкл" || s == "выкл") && forall k <- bd.states[s] :: KeyReads(fac, bd, k, bd.states[s][k])
  }

  /** The first state that is not read is one that crashes. */
  predicate StatesCrash(fac: Factory, bd: BlockDesc) {
    exists s <- bd.states :: StateCrashes(fac, bd, s) && forall r <- bd.states :: Less(r, s) ==> StateReads(fac, bd, r)
  }

  lemma OneStateIff(fac: Factory, bd: BlockDesc, tree: Tree, s: string)
    requires Shape(tree.cfg, tree.st) && BodyReflects(fac, bd, tree.cfg, tree.st) && s in bd.states
    requires s == POWER_ON || s == POWER_OFF
    ensures var r := ReadState(fac, tree, bd.params, SortedKeys(bd.states[s].Keys), bd.states[s], map[]);
            (r.Crashed? <==> StateCrashes(fac, bd, s)) && (r.Accepted? <==> StateReads(fac, bd, s))
  {
    hide BodyReflects, KeyReads, KeyDangles, ReadState;
    var texts := bd.states[s];
    ReadStateIff(fac, bd, tree, SortedKeys(texts.Keys), texts, map[]);
    MeetsFirstBad(texts.Keys, Dangling(bd), Reading(fac, bd, texts));
    FirstDangling(fac, bd, texts);
  }

  lemma FirstDangling(fac: Factory, bd: BlockDesc, texts: map<string, string>)
    ensures HasFirstBad(texts.Keys, Dangling(bd), Reading(fac, bd, texts)) <==>
            exists k <- texts :: KeyDangles(bd, k) && forall j <- texts :: Less(j, k) ==> KeyReads(fac, bd, j, texts[j])
  {
    hide KeyReads, KeyDangles;
    var bad, good := Dangling(bd), Reading(fac, bd, texts);
    if HasFirstBad(texts.Keys, bad, good) {
      var k :| k in texts.Keys && bad(k) && forall j <- texts.Keys :: Less(j, k) ==> good(j);
      assert KeyDangles(bd, k);
      forall j <- texts | Less(j, k) ensures KeyReads(fac, bd, j, texts[j]) { assert good(j); }
    }
    if k :| k in texts && KeyDangles(bd, k) && forall j <- texts :: Less(j, k) ==> KeyReads(fac, bd, j, texts[j]) {
      assert k in texts.Keys && bad(k);
      forall j <- texts.Keys | Less(j, k) ensures good(j) {}
    }
  }

  function Crashing(fac: Factory, bd: BlockDesc): string -> bool {
    s => s in bd.states && StateCrashes(fac, bd, s)
  }

  function Passing(fac: Factory, bd: BlockDesc): string -> bool {
    s => s in bd.states && StateReads(fac, bd, s)
  }

  lemma {:induction false} AddStatesIff(fac: Factory, bd: BlockDesc, tree: Tree, keys: seq<string>)
    requires Shape(tree.cfg, tree.st) && BodyReflects(fac, bd, tree.cfg, tree.st) && forall s <- keys :: s in bd.states
    ensures var r := AddStates(fac, tree, bd.params, keys, bd.states);
            && (r.Crashed? <==> MeetsBad(keys, Crashing(fac, bd), Passing(fac, bd)))
            && (r.Accepted? <==> forall s <- keys :: StateReads(fac, bd, s))
    decreases keys
  {
    hide BodyReflects, ReadState, StateCrashes, StateReads;
    if keys != [] {
      var s := keys[0];
      assert keys == [s] + keys[1..];
      if s != POWER_ON && s != POWER_OFF {
        UnknownState(fac, bd, s);
      } else {
        OneStateIff(fac, bd, tree, s);
        var r := ReadState(fac, tree, bd.params, SortedKeys(bd.states[s].Keys), bd.states[s], map[]);
        if r.Accepted? {
          var cfg1 := if s == POWER_ON then tree.cfg.(on := r.value) else tree.cfg.(off := r.value);
          EdgesAreNoBody(fac, bd, tree, cfg1.on, cfg1.off);
          AddStatesIff(fac, bd, Tree(cfg1, tree.st), keys[1..]);
        }
      }
    }
  }

  lemma UnknownState(fac: Factory, bd: BlockDesc, s: string)
    requires s in bd.states && s != POWER_ON && s != POWER_OFF
    ensures !StateCrashes(fac, bd, s) && !StateReads(fac, bd, s)
  {
  }

  lemma AllStatesIff(fac: Factory, bd: BlockDesc, tree: Tree)
    requires Shape(tree.cfg, tree.st) && BodyReflects(fac, bd, tree.cfg, tree.st)
    ensures var r := AddStates(fac, tree, bd.params, SortedKeys(bd.states.Keys), bd.states);
            && (r.Crashed? <==> StatesCrash(fac, bd))
            && (r.Accepted? <==> forall s <- bd.states :: StateReads(fac, bd, s))
  {
    hide BodyReflects, StateCrashes, StateReads, AddStates;
    AddStatesIff(fac, bd, tree, SortedKeys(bd.states.Keys));
    MeetsFirstBad(bd.states.Keys, Crashing(fac, bd), Passing(fac, bd));
    var bad, good := Crashing(fac, bd), Passing(fac, bd);
    if HasFirstBad(bd.states.Keys, bad, good) {
      var s :| s in bd.states.Keys && bad(s) && forall r <- bd.states.Keys :: Less(r, s) ==> good(r);
      assert StateCrashes(fac, bd, s);
      forall r <- bd.states | Less(r, s) ensures StateReads(fac, bd, r) { assert good(r); }
    }
    if StatesCrash(fac, bd) {
      var s :| s in bd.states && StateCrashes(fac, bd, s) &&
        forall r <- bd.states :: Less(r, s) ==> StateReads(fac, bd, r);
      assert s in bd.states.Keys && bad(s);
      forall r <- bd.states.Keys | Less(r, s) ensures good(r) {}
    }
  }

  // ----- the two conditions -----

  /** Everything but the initial states is as decode wants it: accepted children, registered functions,
      variables with sound sources and destinations, no variable of a child used twice, and conditions
      over described variables only. */
  ghost predicate Joins(fac: Factory, bd: BlockDesc)
    decreases bd, 0
  {
    && (forall i | 0 <= i < |bd.blocks| :: DescAccepted(fac, bd.blocks[i].desc))
    && (forall k <- bd.subs :: bd.subs[k].func in fac.funcs)
    && (forall k <- bd.params :: ParamOk(fac, bd, k))
    && (forall j, k | j in bd.params && k in bd.params && j != k :: TargetsApart(bd.params, j, k))
    && (forall i | 0 <= i < |bd.blocks| :: NamesKnown(bd.blocks[i].desc.cond, bd.params))
    && (forall k <- bd.subs :: NamesKnown(bd.subs[k].cond, bd.params))
  }

  /** Whatever is no operator is described. */
  predicate NamesKnown(cond: seq<string>, params: map<string, ParamDesc>) {
    forall t <- cond :: t == "&" || t == "|" || t == "!" || t in params
  }

  lemma KnownAlike(cond: seq<string>, params: map<string, ParamDesc>)
    ensures OperandsKnown(cond, params) <==> NamesKnown(cond, params)
  {
    forall t ensures t in Formula.LogicOps() <==> t == "&" || t == "|" || t == "!" {}
  }

  ghost predicate DescAccepted(fac: Factory, bd: BlockDesc)
    decreases bd, 1
  {
    Joins(fac, bd) && forall s <- bd.states :: StateReads(fac, bd, s)
  }

  /** decode crashes in the first child that is not accepted, or in an initial state of its own. */
  ghost predicate DescCrashes(fac: Factory, bd: BlockDesc)
    decreases bd
  {
    || (exists i: nat :: i < |bd.blocks| && DescCrashes(fac, bd.blocks[i].desc) &&
          forall j | 0 <= j < i :: DescAccepted(fac, bd.blocks[j].desc))
    || (Joins(fac, bd) && StatesCrash(fac, bd))
  }

  // ----- the loop over the variables -----

  predicate Free(ws: set<Wire>, t: Target) {
    forall w <- ws :: Target(w.block, w.name) != t
  }

  predicate AllFree(ws: set<Wire>, key: string, ds: seq<Dest>) {
    forall d <- ds :: Free(ws, TargetOf(key, d))
  }

  ghost predicate BlocksNamed(blocks: seq<NamedBlock>) {
    forall i, k | 0 <= i < k < |blocks| :: blocks[i].name != blocks[k].name
  }

  /** What decode sees of a variable of a child. */
  lemma EndSeen(fac: Factory, bd: BlockDesc, cfg: Cfg, st: St, name: string)
    requires FactoryOk(fac) && Shape(cfg, st) && BodyReflects(fac, bd, cfg, st)
    ensures GetVariable(cfg, st, name).Some? && name in st.vars <==> EndOk(bd, name)
    ensures GetVariable(cfg, st, name).Some? ==>
              TypeAt(fac, Origin(bd, name)) == Some(TypeOf(GetVariable(cfg, st, name).value))
  {
    LookupIsDescribed(fac, bd, cfg, st, name);
    OriginStarts(fac, bd, cfg, st, name);
    StartTyped(fac, Origin(bd, name));
  }

  /** A name of a child is unused exactly if no wire of the block has it. */
  lemma UseFreeIff(blocks: seq<NamedBlock>, kids: seq<Tree>, i: nat, name: string)
    requires |kids| == |blocks| && BlocksNamed(blocks) && i < |kids|
    requires forall k | 0 <= k < |kids| :: kids[k].cfg.name == blocks[k].name
    ensures name !in kids[i].cfg.use <==> Free(Uses(Cfgs(kids)), Target(blocks[i].name, name))
  {
    var cfgs := Cfgs(kids);
    if name in kids[i].cfg.use { assert Wire(cfgs[i].name, name, cfgs[i].use[name]) in Uses(cfgs); }
  }

  lemma FeedFreeIff(blocks: seq<NamedBlock>, kids: seq<Tree>, i: nat, key: string)
    requires i < |kids| && key in kids[i].cfg.ret
    ensures exists w <- Feeds(Cfgs(kids)) :: w.far == key
  {
    var cfgs := Cfgs(kids);
    assert Wire(cfgs[i].name, cfgs[i].ret[key], key) in Feeds(cfgs);
  }

  lemma SourceIff(fac: Factory, bd: BlockDesc, kids: seq<Tree>, vars: Vars, key: string)
    requires FactoryOk(fac) && KidsShape(kids) && Progress(fac, bd, kids, vars) && key in bd.params && key !in vars
    ensures Source(fac, kids, key, bd.params[key]).Accepted? <==> SourceOk(fac, bd, key)
  {
    hide BodyReflects, EdgeReflects, GetVariable, Feeds, Uses;
    var pd := bd.params[key];
    if pd.srcBlock != "" {
      KidsFoundAlike(kids, bd.blocks, pd.srcBlock, 0);
      match FindKid(kids, pd.srcBlock, 0)
      case None =>
      case Some(i) =>
        EndSeen(fac, bd.blocks[i].desc, kids[i].cfg, kids[i].st, OrOwn(pd.srcName, key));
        if key in kids[i].cfg.ret { FeedFreeIff(bd.blocks, kids, i, key); }
    }
  }

  lemma DestIff(fac: Factory, bd: BlockDesc, kids: seq<Tree>, key: string, ty: Ty, d: Dest)
    requires FactoryOk(fac) && KidsShape(kids) && KidsReflect(fac, bd.blocks, kids) && BlocksNamed(bd.blocks)
    ensures AddDest(kids, key, ty, d).Accepted? <==>
            DestOk(fac, bd, key, ty, d) && Free(Uses(Cfgs(kids)), TargetOf(key, d))
  {
    hide BodyReflects, EdgeReflects, GetVariable, Feeds, Uses, Free;
    KidsFoundAlike(kids, bd.blocks, d.block, 0);
    match FindKid(kids, d.block, 0)
    case None =>
    case Some(i) =>
      EndSeen(fac, bd.blocks[i].desc, kids[i].cfg, kids[i].st, OrOwn(d.name, key));
      UseFreeIff(bd.blocks, kids, i, OrOwn(d.name, key));
  }

  lemma {:induction false} DestsIff(fac: Factory, bd: BlockDesc, kids: seq<Tree>, key: string, ty: Ty, ds: seq<Dest>)
    requires FactoryOk(fac) && KidsShape(kids) && KidsReflect(fac, bd.blocks, kids) && BlocksNamed(bd.blocks)
    ensures AddDests(kids, key, ty, ds).Accepted? <==>
            (forall d <- ds :: DestOk(fac, bd, key, ty, d)) && TargetsDiffer(key, ds) &&
              AllFree(Uses(Cfgs(kids)), key, ds)
    decreases ds
  {
    hide KidsReflect, AddDest, DestOk, Uses, FactoryOk, BlocksNamed;
    if ds != [] {
      var d, rest := ds[0], ds[1..];
      assert ds == [d] + rest;
      DestIff(fac, bd, kids, key, ty, d);
      if AddDest(kids, key, ty, d).Accepted? {
        DestReflects(fac, bd.blocks, kids, key, ty, d);
        var k1 := AddDest(kids, key, ty, d).value;
        DestsIff(fac, bd, k1, key, ty, rest);
        HeadTarget(Uses(Cfgs(kids)), Uses(Cfgs(k1)), key, ds);
      }
    }
  }

  /** With the first target added to the wires, the rest must differ from it. */
  lemma HeadTarget(ws: set<Wire>, ws1: set<Wire>, key: string, ds: seq<Dest>)
    requires ds != [] && ws1 == ws + {Wire(ds[0].block, OrOwn(ds[0].name, key), key)} && Free(ws, TargetOf(key, ds[0]))
    ensures TargetsDiffer(key, ds) && AllFree(ws, key, ds) <==>
            TargetsDiffer(key, ds[1..]) && AllFree(ws1, key, ds[1..])
  {
    var rest := ds[1..];
    if TargetsDiffer(key, ds) && AllFree(ws, key, ds) {
      forall e | e in rest ensures Free(ws1, TargetOf(key, e)) {
        var j :| 0 <= j < |rest| && rest[j] == e;
        assert ds[j + 1] == e && TargetOf(key, ds[0]) != TargetOf(key, ds[j + 1]);
      }
    }
    if TargetsDiffer(key, rest) && AllFree(ws1, key, rest) {
      forall i, j | 0 <= i < j < |ds| ensures TargetOf(key, ds[i]) != TargetOf(key, ds[j]) {
        assert ds[j] == rest[j - 1] && Free(ws1, TargetOf(key, rest[j - 1]));
        if i > 0 { assert ds[i] == rest[i - 1]; }
      }
    }
  }

  lemma ParamIff(fac: Factory, bd: BlockDesc, kids: seq<Tree>, vars: Vars, key: string)
    requires FactoryOk(fac) && KidsShape(kids) && Progress(fac, bd, kids, vars) && BlocksNamed(bd.blocks)
    requires key in bd.params && key !in vars
    ensures AddParam(fac, kids, vars, key, bd.params[key]).Accepted? <==>
            ParamOk(fac, bd, key) && AllFree(Uses(Cfgs(kids)), key, bd.params[key].dests)
  {
    hide KidsReflect, Source, SourceOk, AddDests, DestOk, Uses, Feeds, AllFree, TargetsDiffer;
    var s := Source(fac, kids, key, bd.params[key]);
    SourceIff(fac, bd, kids, vars, key);
    if s.Accepted? {
      SourceReflects(fac, bd, kids, key);
      StartTyped(fac, OwnOrigin(bd, key));
      DestsIff(fac, bd, s.value.0, key, TypeOf(s.value.1), bd.params[key].dests);
    }
  }

  /** Every variable among keys is sound, and its targets are free of the wires ws. */
  predicate KeysOk(fac: Factory, bd: BlockDesc, keys: seq<string>, ws: set<Wire>)
    requires forall k <- keys :: k in bd.params
  {
    && (forall k <- keys :: ParamOk(fac, bd, k) && AllFree(ws, k, bd.params[k].dests))
    && forall i, j | 0 <= i < j < |keys| :: TargetsApart(bd.params, keys[i], keys[j])
  }

  lemma {:induction false} ParamsIff(fac: Factory, bd: BlockDesc, kids: seq<Tree>, vars: Vars, keys: seq<string>)
    requires FactoryOk(fac) && KidsShape(kids) && Progress(fac, bd, kids, vars) && BlocksNamed(bd.blocks)
    requires (forall k <- keys :: k in bd.params && k !in vars) && NoDuplicates(keys)
    ensures AddParams(fac, kids, vars, keys, bd.params).Accepted? <==> KeysOk(fac, bd, keys, Uses(Cfgs(kids)))
    decreases keys
  {
    hide AddParam, ParamOk, Feeds, Uses, AllFree, TargetsApart, KidsReflect, FactoryOk, BlocksNamed;
    if keys != [] {
      var key, rest := keys[0], keys[1..];
      assert keys == [key] + rest;
      ParamIff(fac, bd, kids, vars, key);
      if AddParam(fac, kids, vars, key, bd.params[key]).Accepted? {
        var (k1, vs) := AddParam(fac, kids, vars, key, bd.params[key]).value;
        ParamProgress(fac, bd, kids, vars, key);
        ParamsIff(fac, bd, k1, vs, rest);
        HeadKeyOk(fac, bd, keys, Uses(Cfgs(kids)));
      }
    }
  }

  lemma UsesAreTargets(bd: BlockDesc, key: string, t: Target)
    requires key in bd.params
    ensures !Free(DescUses(bd.params, {key}), t) <==> exists d <- bd.params[key].dests :: TargetOf(key, d) == t
  {
    var more := DescUses(bd.params, {key});
    if d :| d in bd.params[key].dests && TargetOf(key, d) == t {
      assert Wire(t.block, t.name, key) in more;
    }
  }

  lemma FreeOfBoth(a: set<Wire>, b: set<Wire>, t: Target)
    ensures Free(a + b, t) <==> Free(a, t) && Free(b, t)
  {
  }

  lemma TakenIff(bd: BlockDesc, key: string, ws: set<Wire>, k: string)
    requires key in bd.params && k in bd.params
    ensures AllFree(ws + DescUses(bd.params, {key}), k, bd.params[k].dests) <==>
            AllFree(ws, k, bd.params[k].dests) && TargetsApart(bd.params, key, k)
  {
    hide Free, DescUses, TargetOf;
    var more := DescUses(bd.params, {key});
    forall e | e in bd.params[k].dests
      ensures Free(ws + more, TargetOf(k, e)) <==>
              Free(ws, TargetOf(k, e)) && forall d <- bd.params[key].dests :: TargetOf(key, d) != TargetOf(k, e)
    {
      FreeOfBoth(ws, more, TargetOf(k, e));
      UsesAreTargets(bd, key, TargetOf(k, e));
    }
  }

  lemma HeadKeyOk(fac: Factory, bd: BlockDesc, keys: seq<string>, ws: set<Wire>)
    requires keys != [] && forall k <- keys :: k in bd.params
    requires ParamOk(fac, bd, keys[0]) && AllFree(ws, keys[0], bd.params[keys[0]].dests)
    ensures KeysOk(fac, bd, keys, ws) <==> KeysOk(fac, bd, keys[1..], ws + DescUses(bd.params, {keys[0]}))
  {
    hide ParamOk, AllFree, TargetsApart, DescUses;
    var key, rest := keys[0], keys[1..];
    assert keys == [key] + rest;
    forall k | k in rest
      ensures AllFree(ws + DescUses(bd.params, {key}), k, bd.params[k].dests) <==>
              AllFree(ws, k, bd.params[k].dests) && TargetsApart(bd.params, key, k)
    {
      TakenIff(bd, key, ws, k);
    }
    if KeysOk(fac, bd, keys, ws) {
      forall k | k in rest ensures TargetsApart(bd.params, key, k) {
        var j :| 0 <= j < |rest| && rest[j] == k;
        assert keys[j + 1] == k;
      }
      forall i, j | 0 <= i < j < |rest| ensures TargetsApart(bd.params, rest[i], rest[j]) {
        assert keys[i + 1] == rest[i] && keys[j + 1] == rest[j];
      }
    }
    if KeysOk(fac, bd, rest, ws + DescUses(bd.params, {key})) {
      forall i, j | 0 <= i < j < |keys| ensures TargetsApart(bd.params, keys[i], keys[j]) {
        assert keys[j] == rest[j - 1] && rest[j - 1] in rest;
        if i > 0 { assert keys[i] == rest[i - 1]; }
      }
    }
  }

  // ----- decode as a whole -----

  lemma {:induction false} DestsNeverCrash(kids: seq<Tree>, key: string, ty: Ty, ds: seq<Dest>)
    requires KidsShape(kids)
    ensures !AddDests(kids, key, ty, ds).Crashed?
    decreases ds
  {
    if ds != [] && AddDest(kids, key, ty, ds[0]).Accepted? {
      AddDestKeepsShape(kids, key, ty, ds[0]);
      DestsNeverCrash(AddDest(kids, key, ty, ds[0]).value, key, ty, ds[1..]);
    }
  }

  lemma {:induction false} ParamsNeverCrash(fac: Factory, kids: seq<Tree>, vars: Vars, keys: seq<string>,
                                            params: map<string, ParamDesc>)
    requires KidsShape(kids) && forall k <- keys :: k in params
    ensures !AddParams(fac, kids, vars, keys, params).Crashed?
    decreases keys
  {
    if keys != [] {
      var key := keys[0];
      var s := Source(fac, kids, key, params[key]);
      if s.Accepted? {
        SourceKeepsShape(fac, kids, key, params[key]);
        DestsNeverCrash(s.value.0, key, TypeOf(s.value.1), params[key].dests);
        var p := AddParam(fac, kids, vars, key, params[key]);
        if p.Accepted? { ParamsNeverCrash(fac, p.value.0, p.value.1, keys[1..], params); }
      }
    }
  }

  /** Everything before the initial states is accepted. */
  ghost predicate Connects(fac: Factory, bd: BlockDesc) {
    && LoadKids(fac, bd, 0).Accepted?
    && (forall k <- bd.subs :: bd.subs[k].func in fac.funcs)
    && var p := AddParams(fac, LoadKids(fac, bd, 0).value, map[], SortedKeys(bd.params.Keys), bd.params);
    && p.Accepted? && (forall b <- p.value.0 :: OperandsKnown(b.cfg.cond, bd.params))
    && (forall k <- bd.subs :: OperandsKnown(bd.subs[k].cond, bd.params))
  }

  function Connected(fac: Factory, name: string, bd: BlockDesc): (t: Tree)
    requires Connects(fac, bd)
    ensures Shape(t.cfg, t.st)
  {
    var (kids, vars) := AddParams(fac, LoadKids(fac, bd, 0).value, map[], SortedKeys(bd.params.Keys), bd.params).value;
    Assemble(fac, name, bd, kids, vars)
  }

  lemma LoadInStages(fac: Factory, name: string, bd: BlockDesc)
    ensures Load(fac, name, bd) ==
            if Connects(fac, bd) then
              AddStates(fac, Connected(fac, name, bd), bd.params, SortedKeys(bd.states.Keys), bd.states)
            else if LoadKids(fac, bd, 0).Crashed? then Crashed
            else Refused
    ensures Connects(fac, bd) ==> LoadKids(fac, bd, 0).Accepted?
  {
    hide LoadKids, AddParams, Assemble, AddStates;
    if LoadKids(fac, bd, 0).Accepted? {
      ParamsNeverCrash(fac, LoadKids(fac, bd, 0).value, map[], SortedKeys(bd.params.Keys), bd.params);
    }
  }

  lemma {:induction false} KidsAnswer(fac: Factory, bd: BlockDesc, i: nat)
    requires i <= |bd.blocks|
    requires forall k | 0 <= k < |bd.blocks| :: Answered(fac, bd.blocks[k].name, bd.blocks[k].desc)
    ensures LoadKids(fac, bd, i).Crashed? <==>
            exists k: nat :: i <= k < |bd.blocks| && DescCrashes(fac, bd.blocks[k].desc) &&
              forall j | i <= j < k :: DescAccepted(fac, bd.blocks[j].desc)
    ensures LoadKids(fac, bd, i).Accepted? <==> forall k | i <= k < |bd.blocks| :: DescAccepted(fac, bd.blocks[k].desc)
    decreases |bd.blocks| - i
  {
    hide Load, DescCrashes, DescAccepted;
    if i < |bd.blocks| {
      assert Answered(fac, bd.blocks[i].name, bd.blocks[i].desc);
      KidsAnswer(fac, bd, i + 1);
    }
  }

  ghost predicate Answered(fac: Factory, name: string, bd: BlockDesc) {
    && (Load(fac, name, bd).Accepted? <==> DescAccepted(fac, bd))
    && (Load(fac, name, bd).Crashed? <==> DescCrashes(fac, bd))
  }

  lemma ConnectsIff(fac: Factory, bd: BlockDesc)
    requires FactoryOk(fac) && BlocksNamed(bd.blocks)
    requires LoadKids(fac, bd, 0).Accepted? <==> forall k | 0 <= k < |bd.blocks| :: DescAccepted(fac, bd.blocks[k].desc)
    ensures Connects(fac, bd) <==> Joins(fac, bd)
  {
    hide LoadKids, AddParams, DescAccepted, ParamOk, TargetsApart, OperandsKnown, NamesKnown, KidsReflect;
    hide Uses, Feeds, DescUses, DescFeeds;
    forall cond ensures OperandsKnown(cond, bd.params) <==> NamesKnown(cond, bd.params) { KnownAlike(cond, bd.params); }
    if LoadKids(fac, bd, 0).Accepted? {
      var kids0 := LoadKids(fac, bd, 0).value;
      StartOfLoop(fac, bd);
      var keys := SortedKeys(bd.params.Keys);
      SortedKeysAscend(bd.params.Keys);
      ParamsIff(fac, bd, kids0, map[], keys);
      SortedKeysOk(fac, bd);
      if AddParams(fac, kids0, map[], keys, bd.params).Accepted? { OperandsIff(fac, bd); }
    }
  }

  lemma StartOfLoop(fac: Factory, bd: BlockDesc)
    requires LoadKids(fac, bd, 0).Accepted?
    ensures Progress(fac, bd, LoadKids(fac, bd, 0).value, map[]) && Uses(Cfgs(LoadKids(fac, bd, 0).value)) == {}
  {
    hide LoadKids, KidsReflect;
    KidsAreDescribed(fac, bd, 0);
    assert bd.blocks[0..] == bd.blocks;
    BareKidsHaveNoWires(LoadKids(fac, bd, 0).value);
  }

  lemma SortedKeysOk(fac: Factory, bd: BlockDesc)
    ensures KeysOk(fac, bd, SortedKeys(bd.params.Keys), {}) <==>
            (forall k <- bd.params :: ParamOk(fac, bd, k)) &&
            forall j, k | j in bd.params && k in bd.params && j != k :: TargetsApart(bd.params, j, k)
  {
    hide ParamOk;
    var keys := SortedKeys(bd.params.Keys);
    SortedKeysAscend(bd.params.Keys);
    if KeysOk(fac, bd, keys, {}) {
      forall j, k | j in bd.params && k in bd.params && j != k ensures TargetsApart(bd.params, j, k) {
        assert j in keys && k in keys;
        var a :| 0 <= a < |keys| && keys[a] == j;
        var b :| 0 <= b < |keys| && keys[b] == k;
        assert if a < b then TargetsApart(bd.params, keys[a], keys[b]) else TargetsApart(bd.params, keys[b], keys[a]);
      }
    }
    forall i | 0 <= i < |keys| ensures keys[i] in bd.params { assert keys[i] in keys; }
  }

  lemma OperandsIff(fac: Factory, bd: BlockDesc)
    requires LoadKids(fac, bd, 0).Accepted?
    requires AddParams(fac, LoadKids(fac, bd, 0).value, map[], SortedKeys(bd.params.Keys), bd.params).Accepted?
    ensures var kids := AddParams(fac, LoadKids(fac, bd, 0).value, map[], SortedKeys(bd.params.Keys),
            bd.params).value.0;
            (forall b <- kids :: OperandsKnown(b.cfg.cond, bd.params)) <==>
            forall i | 0 <= i < |bd.blocks| :: OperandsKnown(bd.blocks[i].desc.cond, bd.params)
  {
    hide LoadKids, AddParams, OperandsKnown, Feeds, Uses, DescFeeds, DescUses;
    StartOfLoop(fac, bd);
    ParamsReflect(fac, bd, LoadKids(fac, bd, 0).value, map[], SortedKeys(bd.params.Keys));
    var kids := AddParams(fac, LoadKids(fac, bd, 0).value, map[], SortedKeys(bd.params.Keys), bd.params).value.0;
    forall i | 0 <= i < |kids| ensures kids[i] in kids && kids[i].cfg.cond == bd.blocks[i].desc.cond {
      assert Reflects(fac, bd.blocks[i].desc, kids[i].cfg, kids[i].st);
    }
  }

  /** decode accepts exactly the descriptions that are DescAccepted, follows a null pointer on exactly
      those that are DescCrashes, and refuses the rest. */
  lemma {:induction false} LoadAnswers(fac: Factory, name: string, bd: BlockDesc)
    requires FactoryOk(fac) && KeysDistinct(bd)
    ensures Load(fac, name, bd).Accepted? <==> DescAccepted(fac, bd)
    ensures Load(fac, name, bd).Crashed? <==> DescCrashes(fac, bd)
    decreases bd
  {
    hide Load, LoadKids, Joins, Connects, StateReads, StatesCrash, AddStates;
    forall k | 0 <= k < |bd.blocks| ensures Answered(fac, bd.blocks[k].name, bd.blocks[k].desc) {
      LoadAnswers(fac, bd.blocks[k].name, bd.blocks[k].desc);
    }
    KidsAnswer(fac, bd, 0);
    ConnectsIff(fac, bd);
    LoadInStages(fac, name, bd);
    if Connects(fac, bd) {
      ConnectedReflects(fac, name, bd);
      AllStatesIff(fac, bd, Connected(fac, name, bd));
    }
  }

  lemma ConnectedReflects(fac: Factory, name: string, bd: BlockDesc)
    requires Connects(fac, bd)
    ensures BodyReflects(fac, bd, Connected(fac, name, bd).cfg, Connected(fac, name, bd).st)
  {
    BodyIsDescribed(fac, name, bd);
  }
}
