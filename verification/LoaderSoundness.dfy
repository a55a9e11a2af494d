/** What an accepted configuration guarantees, and exactly when that is well-wiredness. */
module LoaderSoundness {
  import opened Common
  import opened StringOrder
  import opened Values
  import opened Engine
  import opened Names
  import opened Soundness
  import opened Loader
  import opened Power
  import opened Wires
  import opened ErrorPaths
  import Formula

  /** A wire of a loaded child: the named variable exists in the child itself, and the variable that
      get_variable finds under that name has the type of the parent's end; a fed variable also starts
      with the value found. */
  ghost predicate ChildWired(cc: Cfg, c: St, vars: Vars)
    requires Shape(cc, c)
  {
    && (forall n {:trigger cc.use[n]} | n in cc.use ::
          && n in c.vars && cc.use[n] in vars
          && GetVariable(cc, c, n).Some? && TypeOf(GetVariable(cc, c, n).value) == TypeOf(vars[cc.use[n]].val))
    && (forall d {:trigger cc.ret[d]} | d in cc.ret ::
          && d in vars && cc.ret[d] in c.vars
          && GetVariable(cc, c, cc.ret[d]) == Some(vars[d].val))
  }

  ghost predicate EdgeListed(cfg: Cfg, st: St, edge: Params)
    requires Shape(cfg, st)
  {
    forall k {:trigger edge[k]} | k in edge ::
      k in st.vars && GetVariable(cfg, st, k).Some? && TypeOf(GetVariable(cfg, st, k).value) == TypeOf(edge[k])
  }

  ghost predicate CondsBound(cfg: Cfg, st: St)
    requires Shape(cfg, st)
  {
    && (forall j | 0 <= j < |cfg.subs| :: CondBound(cfg.subs[j].cond, VarTypes(st.vars)))
    && (forall i | 0 <= i < |cfg.children| :: CondBound(cfg.children[i].cond, VarTypes(st.vars)))
  }

  /** What decode establishes, over the whole tree. */
  ghost predicate PathWired(cfg: Cfg, st: St)
    requires Shape(cfg, st)
    decreases cfg
  {
    && CondsBound(cfg, st)
    && EdgeListed(cfg, st, cfg.on) && EdgeListed(cfg, st, cfg.off)
    && forall i | 0 <= i < |cfg.children| ::
         && ChildWired(cfg.children[i], st.children[i], st.vars)
         && PathWired(cfg.children[i], st.children[i])
  }

  /** A freshly loaded tree: nothing locked, blocked, powered, planned, called or reported. */
  ghost predicate Pristine(cfg: Cfg, st: St)
    requires Shape(cfg, st)
    decreases cfg
  {
    && !st.power && !st.blocked && st.errors == [] && st.errBlocks == {}
    && st.plan == 0.0 && st.last == 0.0 && st.delta == 0.0
    && (forall k <- st.vars :: !st.vars[k].locked)
    && forall i | 0 <= i < |cfg.children| :: Pristine(cfg.children[i], st.children[i])
  }

  /** No variable has two feeding children. */
  ghost predicate FeedUnique(cfg: Cfg)
    decreases cfg
  {
    && (forall i, k | 0 <= i < |cfg.children| && 0 <= k < |cfg.children| && i != k ::
          cfg.children[i].ret.Keys !! cfg.children[k].ret.Keys)
    && forall i | 0 <= i < |cfg.children| :: FeedUnique(cfg.children[i])
  }

  /** Block names are map keys, hence distinct, at every depth. */
  ghost predicate KeysDistinct(bd: BlockDesc)
    decreases bd
  {
    && (forall i, k | 0 <= i < k < |bd.blocks| :: bd.blocks[i].name != bd.blocks[k].name)
    && forall i | 0 <= i < |bd.blocks| :: KeysDistinct(bd.blocks[i].desc)
  }

  // ----- the loop over the variables -----

  /** A lookup does not see the wires of the block it starts in. */
  lemma LookupIgnoresWires(cfg: Cfg, st: St, use: map<string, string>, ret: map<string, string>, name: string)
    requires Shape(cfg, st)
    ensures Shape(cfg.(use := use, ret := ret), st)
    ensures GetVariable(cfg.(use := use, ret := ret), st, name) == GetVariable(cfg, st, name)
  {
  }

  /** kids is kids0 with more wires. */
  ghost predicate SameButWires(kids: seq<Tree>, kids0: seq<Tree>) {
    && |kids| == |kids0|
    && forall i | 0 <= i < |kids| ::
         && kids[i].st == kids0[i].st
         && kids[i].cfg == kids0[i].cfg.(use := kids[i].cfg.use, ret := kids[i].cfg.ret)
  }

  ghost predicate KidsWired(kids: seq<Tree>, vars: Vars)
    requires KidsShape(kids)
  {
    forall k <- kids :: ChildWired(k.cfg, k.st, vars)
  }

  /** Each fed variable names its feeding child as its source. */
  ghost predicate FedAsDescribed(kids: seq<Tree>, params: map<string, ParamDesc>) {
    forall k <- kids :: forall d {:trigger k.cfg.ret[d]} | d in k.cfg.ret ::
      d in params && params[d].srcBlock == k.cfg.name
  }

  lemma MoreVarsKeepWired(kids: seq<Tree>, vars: Vars, key: string, v: Var)
    requires KidsShape(kids) && KidsWired(kids, vars) && key !in vars
    ensures KidsWired(kids, vars[key := v])
  {
    forall k | k in kids ensures ChildWired(k.cfg, k.st, vars[key := v]) {
      assert ChildWired(k.cfg, k.st, vars);
    }
  }

  lemma SourceWired(fac: Factory, kids: seq<Tree>, vars: Vars, params: map<string, ParamDesc>, key: string)
    requires KidsShape(kids) && KidsWired(kids, vars) && key !in vars && key in params && FedAsDescribed(kids, params)
    requires Source(fac, kids, key, params[key]).Accepted?
    ensures var (k1, v) := Source(fac, kids, key, params[key]).value;
            && KidsShape(k1) && SameButWires(k1, kids) && FedAsDescribed(k1, params)
            && KidsWired(k1, vars[key := Var(v, false)])
  {
    var (k1, v) := Source(fac, kids, key, params[key]).value;
    var vars1 := vars[key := Var(v, false)];
    MoreVarsKeepWired(kids, vars, key, Var(v, false));
    SourceKeepsShape(fac, kids, key, params[key]);
    if params[key].srcBlock != "" {
      var i := FindKid(kids, params[key].srcBlock, 0).value;
      var kid, name := kids[i], OrOwn(params[key].srcName, key);
      assert kid in kids && ChildWired(kid.cfg, kid.st, vars1);
      WireAdded(kid, vars1, key, name, v);
      KidReplaced(kids, i, k1[i], vars1, params);
    }
  }

  lemma WireAdded(kid: Tree, vars: Vars, key: string, name: string, v: Value)
    requires Shape(kid.cfg, kid.st) && ChildWired(kid.cfg, kid.st, vars)
    requires key in vars && vars[key].val == v && name in kid.st.vars && GetVariable(kid.cfg, kid.st, name) == Some(v)
    ensures var cc := kid.cfg.(ret := kid.cfg.ret[key := name]); Shape(cc, kid.st) && ChildWired(cc, kid.st, vars)
  {
    var cc := kid.cfg.(ret := kid.cfg.ret[key := name]);
    forall n { LookupIgnoresWires(kid.cfg, kid.st, kid.cfg.use, cc.ret, n); }
  }

  lemma UseAdded(kid: Tree, vars: Vars, key: string, name: string)
    requires Shape(kid.cfg, kid.st) && ChildWired(kid.cfg, kid.st, vars)
    requires key in vars && name in kid.st.vars && GetVariable(kid.cfg, kid.st, name).Some?
    requires TypeOf(GetVariable(kid.cfg, kid.st, name).value) == TypeOf(vars[key].val)
    ensures var cc := kid.cfg.(use := kid.cfg.use[name := key]); Shape(cc, kid.st) && ChildWired(cc, kid.st, vars)
  {
    var cc := kid.cfg.(use := kid.cfg.use[name := key]);
    forall n { LookupIgnoresWires(kid.cfg, kid.st, cc.use, kid.cfg.ret, n); }
  }

  lemma KidReplaced(kids: seq<Tree>, i: nat, k: Tree, vars: Vars, params: map<string, ParamDesc>)
    requires KidsShape(kids) && KidsWired(kids, vars) && FedAsDescribed(kids, params) && i < |kids|
    requires Shape(k.cfg, k.st) && ChildWired(k.cfg, k.st, vars)
    requires k.st == kids[i].st && k.cfg == kids[i].cfg.(use := k.cfg.use, ret := k.cfg.ret)
    requires forall d {:trigger k.cfg.ret[d]} | d in k.cfg.ret :: d in params && params[d].srcBlock == k.cfg.name
    ensures var k1 := kids[i := k];
            KidsShape(k1) && KidsWired(k1, vars) && FedAsDescribed(k1, params) && SameButWires(k1, kids)
  {
    var k1 := kids[i := k];
    forall x | x in k1 ensures Shape(x.cfg, x.st) && ChildWired(x.cfg, x.st, vars) {
      assert x == k || x in kids;
    }
    assert FedAsDescribed(k1, params) by {
      forall x | x in k1 ensures x == k || x in kids {}
    }
  }

  lemma DestWired(kids: seq<Tree>, vars: Vars, params: map<string, ParamDesc>, key: string, d: Dest)
    requires KidsShape(kids) && KidsWired(kids, vars) && FedAsDescribed(kids, params) && key in vars
    requires AddDest(kids, key, TypeOf(vars[key].val), d).Accepted?
    ensures var k1 := AddDest(kids, key, TypeOf(vars[key].val), d).value;
            KidsShape(k1) && SameButWires(k1, kids) && FedAsDescribed(k1, params) && KidsWired(k1, vars)
  {
    hide GetVariable, ChildWired;
    var ty := TypeOf(vars[key].val);
    var i := FindKid(kids, d.block, 0).value;
    assert kids[i] in kids;
    UseAdded(kids[i], vars, key, OrOwn(d.name, key));
    AddDestKeepsShape(kids, key, ty, d);
    KidReplaced(kids, i, AddDest(kids, key, ty, d).value[i], vars, params);
  }

  lemma {:induction false} DestsWired(kids: seq<Tree>, vars: Vars, params: map<string, ParamDesc>, key: string,
          ds: seq<Dest>)
    requires KidsShape(kids) && KidsWired(kids, vars) && FedAsDescribed(kids, params) && key in vars
    requires AddDests(kids, key, TypeOf(vars[key].val), ds).Accepted?
    ensures var k1 := AddDests(kids, key, TypeOf(vars[key].val), ds).value;
            SameButWires(k1, kids) && FedAsDescribed(k1, params) && KidsWired(k1, vars)
    decreases ds
  {
    hide AddDest, KidsWired, FedAsDescribed;
    if ds != [] {
      DestWired(kids, vars, params, key, ds[0]);
      DestsWired(AddDest(kids, key, TypeOf(vars[key].val), ds[0]).value, vars, params, key, ds[1..]);
    }
  }

  lemma {:induction false} ParamsWired(fac: Factory, kids: seq<Tree>, vars: Vars, keys: seq<string>,
          params: map<string, ParamDesc>)
    requires KidsShape(kids) && forall k <- keys :: k in params
    requires KidsWired(kids, vars) && FedAsDescribed(kids, params) && (forall k <- vars :: !vars[k].locked)
    requires AddParams(fac, kids, vars, keys, params).Accepted?
    ensures var (k1, vs) := AddParams(fac, kids, vars, keys, params).value;
            && SameButWires(k1, kids) && FedAsDescribed(k1, params) && KidsWired(k1, vs)
            && vs.Keys == vars.Keys + (set k | k in keys) && (forall k <- vs :: !vs[k].locked)
    decreases keys
  {
    hide AddParam, KidsWired, FedAsDescribed;
    if keys != [] {
      var key, pd := keys[0], params[keys[0]];
      assert keys == [key] + keys[1..];
      var (k1, vs1) := AddParam(fac, kids, vars, key, pd).value;
      ParamWired(fac, kids, vars, params, key);
      ParamsWired(fac, k1, vs1, keys[1..], params);
    }
  }

  lemma ParamWired(fac: Factory, kids: seq<Tree>, vars: Vars, params: map<string, ParamDesc>, key: string)
    requires KidsShape(kids) && KidsWired(kids, vars) && FedAsDescribed(kids, params) && key in params
    requires AddParam(fac, kids, vars, key, params[key]).Accepted?
    ensures var (k1, vs) := AddParam(fac, kids, vars, key, params[key]).value;
            && SameButWires(k1, kids) && FedAsDescribed(k1, params) && KidsWired(k1, vs)
            && key !in vars && vs == vars[key := Var(vs[key].val, false)]
  {
    var (k0, v) := Source(fac, kids, key, params[key]).value;
    SourceWired(fac, kids, vars, params, key);
    DestsWired(k0, vars[key := Var(v, false)], params, key, params[key].dests);
  }

  // ----- the initial states -----

  lemma {:induction false} StateListed(fac: Factory, tree: Tree, params: map<string, ParamDesc>, keys: seq<string>,
          texts: map<string, string>, setup: Params)
    requires FactoryOk(fac) && Shape(tree.cfg, tree.st) && forall k <- keys :: k in texts
    requires params.Keys == tree.st.vars.Keys && EdgeListed(tree.cfg, tree.st, setup)
    requires ReadState(fac, tree, params, keys, texts, setup).Accepted?
    ensures EdgeListed(tree.cfg, tree.st, ReadState(fac, tree, params, keys, texts, setup).value)
    decreases keys
  {
    if keys != [] {
      var k := keys[0];
      var v := GetVariable(tree.cfg, tree.st, k).value;
      assert TypedParse(fac, TypeOf(v), texts[k]);
      StateListed(fac, tree, params, keys[1..], texts, setup[k := fac.parse(TypeOf(v), texts[k]).value]);
    }
  }

  lemma LookupIgnoresEdges(cfg: Cfg, st: St, on: Params, off: Params, name: string)
    requires Shape(cfg, st)
    ensures Shape(cfg.(on := on, off := off), st)
    ensures GetVariable(cfg.(on := on, off := off), st, name) == GetVariable(cfg, st, name)
  {
  }

  lemma {:induction false} StatesListed(fac: Factory, tree: Tree, params: map<string, ParamDesc>, keys: seq<string>,
          states: map<string, map<string, string>>)
    requires FactoryOk(fac) && Shape(tree.cfg, tree.st) && (forall k <- keys :: k in states) &&
             params.Keys == tree.st.vars.Keys
    requires EdgeListed(tree.cfg, tree.st, tree.cfg.on) && EdgeListed(tree.cfg, tree.st, tree.cfg.off)
    requires AddStates(fac, tree, params, keys, states).Accepted?
    ensures var t := AddStates(fac, tree, params, keys, states).value;
            Shape(t.cfg, t.st) && EdgeListed(t.cfg, t.st, t.cfg.on) && EdgeListed(t.cfg, t.st, t.cfg.off)
    decreases keys
  {
    if keys != [] {
      var k := keys[0];
      var texts := SortedKeys(states[k].Keys);
      StateListed(fac, tree, params, texts, states[k], map[]);
      var setup := ReadState(fac, tree, params, texts, states[k], map[]).value;
      var cfg1 := if k == POWER_ON then tree.cfg.(on := setup) else tree.cfg.(off := setup);
      forall n { LookupIgnoresEdges(tree.cfg, tree.st, cfg1.on, cfg1.off, n); }
      StatesListed(fac, Tree(cfg1, tree.st), params, keys[1..], states);
    }
  }

  // ----- the whole tree -----

  ghost predicate GoodKid(k: Tree) {
    && Shape(k.cfg, k.st) && PathWired(k.cfg, k.st) && Pristine(k.cfg, k.st) && FeedUnique(k.cfg)
    && k.cfg.use == map[] && k.cfg.ret == map[]
  }

  /** The interior of a child does not depend on its own wires. */
  lemma WiresKeepInterior(k: Tree, k0: Tree)
    requires GoodKid(k0) && k.st == k0.st && k.cfg == k0.cfg.(use := k.cfg.use, ret := k.cfg.ret)
    ensures Shape(k.cfg, k.st) && PathWired(k.cfg, k.st) && Pristine(k.cfg, k.st) && FeedUnique(k.cfg)
  {
    forall n { LookupIgnoresWires(k0.cfg, k0.st, k.cfg.use, k.cfg.ret, n); }
  }

  lemma {:induction false} LoadedKidsGood(fac: Factory, bd: BlockDesc, i: nat)
    requires FactoryOk(fac) && KeysDistinct(bd) && i <= |bd.blocks| && LoadKids(fac, bd, i).Accepted?
    ensures var kids := LoadKids(fac, bd, i).value;
            && |kids| == |bd.blocks| - i
            && forall k | 0 <= k < |kids| :: GoodKid(kids[k]) && kids[k].cfg.name == bd.blocks[i + k].name
    decreases bd, 0, |bd.blocks| - i
  {
    hide Load, GoodKid;
    if i < |bd.blocks| {
      var kid := Load(fac, bd.blocks[i].name, bd.blocks[i].desc).value;
      var rest := LoadKids(fac, bd, i + 1).value;
      assert LoadKids(fac, bd, i).value == [kid] + rest;
      LoadedGood(fac, bd.blocks[i].name, bd.blocks[i].desc);
      LoadedKidsGood(fac, bd, i + 1);
      forall k | 0 <= k < |rest| + 1
        ensures GoodKid(([kid] + rest)[k]) && ([kid] + rest)[k].cfg.name == bd.blocks[i + k].name
      {
        if k > 0 { assert ([kid] + rest)[k] == rest[k - 1] && bd.blocks[i + k] == bd.blocks[i + 1 + (k - 1)]; }
      }
    }
  }

  lemma {:induction false} LoadedSubs(fac: Factory, keys: seq<string>, subs: map<string, SubDesc>)
    requires forall k <- keys :: k in subs
    ensures forall j | 0 <= j < |keys| :: LoadSubs(fac, keys, subs)[j] == LoadSub(fac, keys[j], subs[keys[j]])
    decreases keys
  {
    if keys != [] { LoadedSubs(fac, keys[1..], subs); }
  }

  lemma AssembledConds(fac: Factory, name: string, bd: BlockDesc, kids: seq<Tree>, vars: Vars)
    requires KidsShape(kids) && vars.Keys == bd.params.Keys
    requires forall b <- kids :: OperandsKnown(b.cfg.cond, bd.params)
    requires forall k <- bd.subs :: OperandsKnown(bd.subs[k].cond, bd.params)
    ensures var t := Assemble(fac, name, bd, kids, vars); CondsBound(t.cfg, t.st)
  {
    var t := Assemble(fac, name, bd, kids, vars);
    var keys := SortedKeys(bd.subs.Keys);
    LoadedSubs(fac, keys, bd.subs);
    forall j | 0 <= j < |t.cfg.subs| ensures CondBound(t.cfg.subs[j].cond, VarTypes(t.st.vars)) {
      assert keys[j] in keys && t.cfg.subs[j].cond == bd.subs[keys[j]].cond;
      assert OperandsKnown(bd.subs[keys[j]].cond, bd.params);
    }
    forall i | 0 <= i < |t.cfg.children| ensures CondBound(t.cfg.children[i].cond, VarTypes(t.st.vars)) {
      assert kids[i] in kids && OperandsKnown(kids[i].cfg.cond, bd.params);
    }
  }

  lemma AssembledInterior(fac: Factory, name: string, bd: BlockDesc, kids0: seq<Tree>, kids: seq<Tree>, vars: Vars)
    requires KidsShape(kids) && SameButWires(kids, kids0) && KidsWired(kids, vars) && FedAsDescribed(kids, bd.params)
    requires forall k | 0 <= k < |kids0| :: GoodKid(kids0[k])
    requires forall i, k | 0 <= i < k < |kids0| :: kids0[i].cfg.name != kids0[k].cfg.name
    requires forall k <- vars :: !vars[k].locked
    ensures var t := Assemble(fac, name, bd, kids, vars);
            && Pristine(t.cfg, t.st) && FeedUnique(t.cfg)
            && forall i | 0 <= i < |t.cfg.children| ::
                 ChildWired(t.cfg.children[i], t.st.children[i], t.st.vars) &&
                   PathWired(t.cfg.children[i], t.st.children[i])
  {
    var t := Assemble(fac, name, bd, kids, vars);
    forall i | 0 <= i < |kids|
      ensures ChildWired(kids[i].cfg, kids[i].st, vars) && PathWired(kids[i].cfg, kids[i].st)
              && Pristine(kids[i].cfg, kids[i].st) && FeedUnique(kids[i].cfg)
    {
      assert kids[i] in kids && GoodKid(kids0[i]);
      WiresKeepInterior(kids[i], kids0[i]);
    }
    forall i, k | 0 <= i < |kids| && 0 <= k < |kids| && i != k
      ensures kids[i].cfg.ret.Keys !! kids[k].cfg.ret.Keys
    {
      FeedersDiffer(kids, bd.params, i, k);
    }
  }

  lemma FeederNamed(kids: seq<Tree>, kid: Tree, params: map<string, ParamDesc>)
    requires kid in kids && FedAsDescribed(kids, params)
    ensures forall d | d in kid.cfg.ret :: d in params && params[d].srcBlock == kid.cfg.name
  {
    forall d | d in kid.cfg.ret ensures d in params && params[d].srcBlock == kid.cfg.name { var _ := kid.cfg.ret[d]; }
  }

  lemma FeedersDiffer(kids: seq<Tree>, params: map<string, ParamDesc>, i: nat, k: nat)
    requires FedAsDescribed(kids, params) && i < |kids| && k < |kids| && kids[i].cfg.name != kids[k].cfg.name
    ensures kids[i].cfg.ret.Keys !! kids[k].cfg.ret.Keys
  {
    assert kids[i] in kids && kids[k] in kids;
    FeederNamed(kids, kids[i], params);
    FeederNamed(kids, kids[k], params);
  }

  /** Everything an accepted configuration guarantees. */
  lemma {:induction false} LoadedGood(fac: Factory, name: string, bd: BlockDesc)
    requires FactoryOk(fac) && KeysDistinct(bd) && Load(fac, name, bd).Accepted?
    ensures GoodKid(Load(fac, name, bd).value) && Load(fac, name, bd).value.cfg.name == name
    decreases bd, 1
  {
    hide AddStates, Assemble, AddParams, LoadKids;
    LoadedKidsGood(fac, bd, 0);
    var kids0 := LoadKids(fac, bd, 0).value;
    var keys := SortedKeys(bd.params.Keys);
    var (kids, vars) := AddParams(fac, kids0, map[], keys, bd.params).value;
    ParamsWired(fac, kids0, map[], keys, bd.params);
    assert vars.Keys == bd.params.Keys;
    AssembledGood(fac, name, bd, kids0, kids, vars);
  }

  lemma AssembledGood(fac: Factory, name: string, bd: BlockDesc, kids0: seq<Tree>, kids: seq<Tree>, vars: Vars)
    requires FactoryOk(fac) && KidsShape(kids) && vars.Keys == bd.params.Keys
    requires SameButWires(kids, kids0) && KidsWired(kids, vars) && FedAsDescribed(kids, bd.params)
    requires forall k | 0 <= k < |kids0| :: GoodKid(kids0[k])
    requires forall i, k | 0 <= i < k < |kids0| :: kids0[i].cfg.name != kids0[k].cfg.name
    requires forall k <- vars :: !vars[k].locked
    requires forall b <- kids :: OperandsKnown(b.cfg.cond, bd.params)
    requires forall k <- bd.subs :: OperandsKnown(bd.subs[k].cond, bd.params)
    requires AddStates(fac, Assemble(fac, name, bd, kids, vars), bd.params, SortedKeys(bd.states.Keys),
             bd.states).Accepted?
    ensures var t := AddStates(fac, Assemble(fac, name, bd, kids, vars), bd.params, SortedKeys(bd.states.Keys),
            bd.states).value;
            GoodKid(t) && t.cfg.name == name
  {
    AssembledInterior(fac, name, bd, kids0, kids, vars);
    AssembledConds(fac, name, bd, kids, vars);
    StatesListed(fac, Assemble(fac, name, bd, kids, vars), bd.params, SortedKeys(bd.states.Keys), bd.states);
  }

  // ----- from lookups to well-wiredness -----

  /** A name get_variable takes as it stands: nothing follows its first dot, if it has one. */
  predicate Plain(name: string) {
    ExtractBlockName(name).1 == ""
  }

  /** A dotted name that is also the name of an own variable: the two variables have one type. */
  predicate AgreesAt(cfg: Cfg, st: St, name: string)
    requires Shape(cfg, st)
  {
    Plain(name) || (name in st.vars && GetVariable(cfg, st, name).Some? &&
      TypeOf(GetVariable(cfg, st, name).value) == TypeOf(st.vars[name].val))
  }

  ghost predicate DottedAgree(cfg: Cfg, st: St)
    requires Shape(cfg, st)
    decreases cfg
  {
    && (forall k {:trigger cfg.on[k]} | k in cfg.on :: AgreesAt(cfg, st, k))
    && (forall k {:trigger cfg.off[k]} | k in cfg.off :: AgreesAt(cfg, st, k))
    && forall i | 0 <= i < |cfg.children| ::
         && (forall n {:trigger cfg.children[i].use[n]} | n in cfg.children[i].use ::
              AgreesAt(cfg.children[i], st.children[i], n))
         && (forall d {:trigger cfg.children[i].ret[d]} | d in cfg.children[i].ret ::
              AgreesAt(cfg.children[i], st.children[i], cfg.children[i].ret[d]))
         && DottedAgree(cfg.children[i], st.children[i])
  }

  lemma EdgeTypedIff(cfg: Cfg, st: St, edge: Params)
    requires Shape(cfg, st) && EdgeListed(cfg, st, edge)
    ensures ValuesTyped(edge, VarTypes(st.vars)) <==> forall k {:trigger edge[k]} | k in edge :: AgreesAt(cfg, st, k)
  {
    forall k | k in edge
      ensures k in st.vars && (AgreesAt(cfg, st, k) <==> VarTypes(st.vars)[k] == TypeOf(edge[k]))
    {
    }
  }

  lemma UseTypedIff(cc: Cfg, c: St, vars: Vars)
    requires Shape(cc, c) && ChildWired(cc, c, vars)
    ensures WiresTyped(cc.use, VarTypes(c.vars), VarTypes(vars)) <==>
            forall n {:trigger cc.use[n]} | n in cc.use :: AgreesAt(cc, c, n)
  {
    forall n | n in cc.use
      ensures n in c.vars && cc.use[n] in vars &&
              (AgreesAt(cc, c, n) <==> VarTypes(c.vars)[n] == VarTypes(vars)[cc.use[n]])
    {
    }
  }

  lemma RetTypedIff(cc: Cfg, c: St, vars: Vars)
    requires Shape(cc, c) && ChildWired(cc, c, vars)
    ensures WiresTyped(cc.ret, VarTypes(vars), VarTypes(c.vars)) <==>
            forall d {:trigger cc.ret[d]} | d in cc.ret :: AgreesAt(cc, c, cc.ret[d])
  {
    forall d | d in cc.ret
      ensures d in vars && cc.ret[d] in c.vars &&
              (AgreesAt(cc, c, cc.ret[d]) <==> VarTypes(vars)[d] == VarTypes(c.vars)[cc.ret[d]])
    {
    }
  }

  /** An accepted tree is well wired exactly when every dotted name its wires and edge values use
      agrees in type with the variable that literally bears the name. */
  lemma {:induction false} WellWiredIffDottedAgree(cfg: Cfg, st: St)
    requires Shape(cfg, st) && PathWired(cfg, st)
    ensures WellWired(cfg, st) <==> DottedAgree(cfg, st)
    decreases cfg
  {
    EdgeTypedIff(cfg, st, cfg.on);
    EdgeTypedIff(cfg, st, cfg.off);
    forall i | 0 <= i < |cfg.children|
      ensures
        && (WellWired(cfg.children[i], st.children[i]) <==> DottedAgree(cfg.children[i], st.children[i]))
        && (WiresTyped(cfg.children[i].use, VarTypes(st.children[i].vars), VarTypes(st.vars)) <==>
            forall n {:trigger cfg.children[i].use[n]} | n in cfg.children[i].use ::
              AgreesAt(cfg.children[i], st.children[i], n))
        && (WiresTyped(cfg.children[i].ret, VarTypes(st.vars), VarTypes(st.children[i].vars)) <==>
            forall d {:trigger cfg.children[i].ret[d]} | d in cfg.children[i].ret ::
              AgreesAt(cfg.children[i], st.children[i], cfg.children[i].ret[d]))
    {
      WellWiredIffDottedAgree(cfg.children[i], st.children[i]);
      UseTypedIff(cfg.children[i], st.children[i], st.vars);
      RetTypedIff(cfg.children[i], st.children[i], st.vars);
    }
  }
}
