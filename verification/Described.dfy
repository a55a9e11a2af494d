/** What a configuration describes, read off the description alone: where each variable gets its
    value from and which wires there are; an accepted description loads into exactly that. */
module Described {
  import opened Common
  import opened StringOrder
  import opened Values
  import opened Engine
  import opened Names
  import opened Loader
  import opened LoaderSoundness

  // ----- names -----

  function FindBlock(blocks: seq<NamedBlock>, name: string, i: nat): (r: Option<nat>)
    requires i <= |blocks|
    ensures r.Some? ==> r.value < |blocks| && blocks[r.value].name == name
    decreases |blocks| - i
  {
    if i == |blocks| then None else if blocks[i].name == name then Some(i) else FindBlock(blocks, name, i + 1)
  }

  /** The description with a type and a text that a lookup of the name ends at. */
  function Origin(bd: BlockDesc, name: string): Option<ParamDesc>
    decreases bd, 1
  {
    var (h, t) := ExtractBlockName(name);
    if t == "" then OwnOrigin(bd, name)
    else
      match FindBlock(bd.blocks, h, 0)
      case None => None
      case Some(i) => Origin(bd.blocks[i].desc, t)
  }

  /** The one that the variable literally so named gets its value from. */
  function OwnOrigin(bd: BlockDesc, name: string): Option<ParamDesc>
    decreases bd, 0
  {
    if name !in bd.params then None
    else if bd.params[name].srcBlock == "" then Some(bd.params[name])
    else
      match FindBlock(bd.blocks, bd.params[name].srcBlock, 0)
      case None => None
      case Some(i) => Origin(bd.blocks[i].desc, if bd.params[name].srcName == "" then name else bd.params[name].srcName)
  }

  /** The value a variable of that description starts with. */
  function Start(fac: Factory, o: Option<ParamDesc>): Option<Value> {
    if o.Some? && o.value.ty in fac.types then Some(Initial(fac, fac.types[o.value.ty], o.value.text)) else None
  }

  function TypeAt(fac: Factory, o: Option<ParamDesc>): Option<Ty> {
    if o.Some? && o.value.ty in fac.types then Some(fac.types[o.value.ty]) else None
  }

  lemma StartTyped(fac: Factory, o: Option<ParamDesc>)
    requires FactoryOk(fac)
    ensures match Start(fac, o)
            case None => TypeAt(fac, o) == None
            case Some(v) => TypeAt(fac, o) == Some(TypeOf(v))
  {
    if o.Some? && o.value.ty in fac.types { assert TypedParse(fac, fac.types[o.value.ty], o.value.text); }
  }

  // ----- wires -----

  /** Variable name of the child called block is joined to variable far of the parent. */
  datatype Wire = Wire(block: string, name: string, far: string)

  function Feeds(cfgs: seq<Cfg>): set<Wire> {
    set i, d | 0 <= i < |cfgs| && d in cfgs[i].ret :: Wire(cfgs[i].name, cfgs[i].ret[d], d)
  }

  function Uses(cfgs: seq<Cfg>): set<Wire> {
    set i, n | 0 <= i < |cfgs| && n in cfgs[i].use :: Wire(cfgs[i].name, n, cfgs[i].use[n])
  }

  /** The wires into and out of the described variables among keys. */
  function DescFeeds(params: map<string, ParamDesc>, keys: set<string>): set<Wire> {
    set k | k in keys && k in params && params[k].srcBlock != "" ::
      Wire(params[k].srcBlock, if params[k].srcName == "" then k else params[k].srcName, k)
  }

  function DescUses(params: map<string, ParamDesc>, keys: set<string>): set<Wire> {
    set k, d | k in keys && k in params && d in params[k].dests ::
      Wire(d.block, if d.name == "" then k else d.name, k)
  }

  function UsesOf(key: string, ds: seq<Dest>): set<Wire> {
    set d | d in ds :: Wire(d.block, OrOwn(d.name, key), key)
  }

  // ----- the tree of a description -----

  function Listed(bd: BlockDesc, state: string): map<string, string> {
    if state in bd.states then bd.states[state] else map[]
  }

  /** The values of an initial state: one for each listed name, read as the type a lookup finds. */
  ghost predicate EdgeReflects(fac: Factory, bd: BlockDesc, texts: map<string, string>, edge: Params) {
    && edge.Keys == texts.Keys
    && forall k <- edge :: KeyReads(fac, bd, k, texts[k]) && ReadAs(fac, bd, k, texts[k]) == Some(edge[k])
  }

  /** The value get_variable finds is of a type that the text can be read as. */
  predicate KeyReads(fac: Factory, bd: BlockDesc, k: string, text: string) {
    k in bd.params && Start(fac, Origin(bd, k)).Some? && ReadAs(fac, bd, k, text).Some?
  }

  function ReadAs(fac: Factory, bd: BlockDesc, k: string, text: string): Option<Value> {
    match Start(fac, Origin(bd, k))
    case None => None
    case Some(v) => fac.parse(TypeOf(v), text)
  }

  /** The subprograms in key order, each with its described function, renaming, priority and condition, not
      called yet and not blocked. */
  ghost predicate SubsReflect(fac: Factory, bd: BlockDesc, cfg: Cfg, st: St)
    requires Shape(cfg, st)
  {
    var keys := SortedKeys(bd.subs.Keys);
    && |cfg.subs| == |keys|
    && forall j | 0 <= j < |keys| ::
         && keys[j] in bd.subs && cfg.subs[j] == DescSub(fac, keys[j], bd.subs[keys[j]])
         && st.subs[j] == SubSt(0.0, 0.0, false)
  }

  function DescSub(fac: Factory, name: string, sd: SubDesc): SubCfg {
    SubCfg(name := name, func := sd.func, remap := sd.remap, priority := sd.priority, cond := sd.cond,
           birth := fac.birth)
  }

  /** The block but for its initial states: times, variables, values, wires and functions as described. */
  ghost predicate BodyReflects(fac: Factory, bd: BlockDesc, cfg: Cfg, st: St)
    requires Shape(cfg, st)
    decreases bd, 0
  {
    && cfg.period == bd.period && cfg.priority == bd.priority && cfg.cond == bd.cond && cfg.birth == fac.birth
    && st.vars.Keys == bd.params.Keys
    && (forall k <- bd.params :: Start(fac, OwnOrigin(bd, k)) == Some(st.vars[k].val))
    && Feeds(cfg.children) == DescFeeds(bd.params, bd.params.Keys)
    && Uses(cfg.children) == DescUses(bd.params, bd.params.Keys)
    && SubsReflect(fac, bd, cfg, st)
    && |cfg.children| == |bd.blocks|
    && forall i | 0 <= i < |bd.blocks| ::
         && cfg.children[i].name == bd.blocks[i].name
         && Reflects(fac, bd.blocks[i].desc, cfg.children[i], st.children[i])
  }

  ghost predicate Reflects(fac: Factory, bd: BlockDesc, cfg: Cfg, st: St)
    requires Shape(cfg, st)
    decreases bd, 1
  {
    && BodyReflects(fac, bd, cfg, st)
    && EdgeReflects(fac, bd, Listed(bd, "вкл"), cfg.on)
    && EdgeReflects(fac, bd, Listed(bd, "выкл"), cfg.off)
  }

  // ----- lookups -----

  lemma {:induction false} ChildrenFoundAlike(children: seq<Cfg>, blocks: seq<NamedBlock>, name: string, i: nat)
    requires i <= |children| == |blocks|
    requires forall k | 0 <= k < |blocks| :: children[k].name == blocks[k].name
    ensures FindChild(children, name, i) == FindBlock(blocks, name, i)
    decreases |blocks| - i
  {
    if i < |blocks| { ChildrenFoundAlike(children, blocks, name, i + 1); }
  }

  lemma {:induction false} KidsFoundAlike(kids: seq<Tree>, blocks: seq<NamedBlock>, name: string, i: nat)
    requires i <= |kids| == |blocks|
    requires forall k | 0 <= k < |blocks| :: kids[k].cfg.name == blocks[k].name
    ensures FindKid(kids, name, i) == FindBlock(blocks, name, i)
    decreases |blocks| - i
  {
    if i < |blocks| { KidsFoundAlike(kids, blocks, name, i + 1); }
  }

  /** get_variable on the tree is the lookup on the description. */
  lemma {:induction false} LookupIsDescribed(fac: Factory, bd: BlockDesc, cfg: Cfg, st: St, name: string)
    requires Shape(cfg, st) && BodyReflects(fac, bd, cfg, st)
    ensures GetVariable(cfg, st, name) == Start(fac, Origin(bd, name))
    decreases bd
  {
    var (h, t) := ExtractBlockName(name);
    if t != "" {
      ChildrenFoundAlike(cfg.children, bd.blocks, h, 0);
      match FindBlock(bd.blocks, h, 0)
      case None =>
      case Some(i) => LookupIsDescribed(fac, bd.blocks[i].desc, cfg.children[i], st.children[i], t);
    }
  }

  // ----- the loop over the variables -----

  function Cfgs(kids: seq<Tree>): seq<Cfg> {
    seq(|kids|, i requires 0 <= i < |kids| => kids[i].cfg)
  }

  /** The children of the description, with whatever wires they have by now. */
  ghost predicate KidsReflect(fac: Factory, blocks: seq<NamedBlock>, kids: seq<Tree>)
    requires KidsShape(kids)
  {
    && |kids| == |blocks|
    && forall i | 0 <= i < |blocks| ::
         && kids[i].cfg.name == blocks[i].name && Shape(kids[i].cfg, kids[i].st)
         && Reflects(fac, blocks[i].desc, kids[i].cfg, kids[i].st)
  }

  lemma OwnWiresDoNotMatter(fac: Factory, bd: BlockDesc, cfg: Cfg, st: St, use: map<string, string>,
                            ret: map<string, string>)
    requires Shape(cfg, st) && Reflects(fac, bd, cfg, st)
    ensures var c := cfg.(use := use, ret := ret); Shape(c, st) && Reflects(fac, bd, c, st)
  {
  }

  lemma FeedAdded(kids: seq<Tree>, i: nat, d: string, s: string)
    requires i < |kids| && d !in kids[i].cfg.ret
    ensures var k := kids[i].(cfg := kids[i].cfg.(ret := kids[i].cfg.ret[d := s]));
            && Feeds(Cfgs(kids[i := k])) == Feeds(Cfgs(kids)) + {Wire(kids[i].cfg.name, s, d)}
            && Uses(Cfgs(kids[i := k])) == Uses(Cfgs(kids))
  {
    var k := kids[i].(cfg := kids[i].cfg.(ret := kids[i].cfg.ret[d := s]));
    var a, b := Cfgs(kids), Cfgs(kids[i := k]);
    assert b == a[i := k.cfg];
    forall w | w in Feeds(a) + {Wire(kids[i].cfg.name, s, d)} ensures w in Feeds(b) {
      if w in Feeds(a) {
        var j, e :| 0 <= j < |a| && e in a[j].ret && w == Wire(a[j].name, a[j].ret[e], e);
        assert e in b[j].ret && w == Wire(b[j].name, b[j].ret[e], e);
      } else {
        assert d in b[i].ret && w == Wire(b[i].name, b[i].ret[d], d);
      }
    }
    forall w | w in Feeds(b) ensures w in Feeds(a) + {Wire(kids[i].cfg.name, s, d)} {
      var j, e :| 0 <= j < |b| && e in b[j].ret && w == Wire(b[j].name, b[j].ret[e], e);
      if j != i || e != d { assert e in a[j].ret && w == Wire(a[j].name, a[j].ret[e], e); }
    }
    assert forall j | 0 <= j < |a| :: b[j].name == a[j].name && b[j].use == a[j].use;
  }

  lemma UseWireAdded(kids: seq<Tree>, i: nat, n: string, key: string)
    requires i < |kids| && n !in kids[i].cfg.use
    ensures var k := kids[i].(cfg := kids[i].cfg.(use := kids[i].cfg.use[n := key]));
            && Uses(Cfgs(kids[i := k])) == Uses(Cfgs(kids)) + {Wire(kids[i].cfg.name, n, key)}
            && Feeds(Cfgs(kids[i := k])) == Feeds(Cfgs(kids))
  {
    var k := kids[i].(cfg := kids[i].cfg.(use := kids[i].cfg.use[n := key]));
    var a, b := Cfgs(kids), Cfgs(kids[i := k]);
    assert b == a[i := k.cfg];
    forall w | w in Uses(a) + {Wire(kids[i].cfg.name, n, key)} ensures w in Uses(b) {
      if w in Uses(a) {
        var j, e :| 0 <= j < |a| && e in a[j].use && w == Wire(a[j].name, e, a[j].use[e]);
        assert e in b[j].use && w == Wire(b[j].name, e, b[j].use[e]);
      } else {
        assert n in b[i].use && w == Wire(b[i].name, n, b[i].use[n]);
      }
    }
    forall w | w in Uses(b) ensures w in Uses(a) + {Wire(kids[i].cfg.name, n, key)} {
      var j, e :| 0 <= j < |b| && e in b[j].use && w == Wire(b[j].name, e, b[j].use[e]);
      if j != i || e != n { assert e in a[j].use && w == Wire(a[j].name, e, a[j].use[e]); }
    }
    assert forall j | 0 <= j < |a| :: b[j].name == a[j].name && b[j].ret == a[j].ret;
  }

  /** The source: the value is the described one, and at most one wire is added. */
  lemma SourceReflects(fac: Factory, bd: BlockDesc, kids: seq<Tree>, key: string)
    requires KidsShape(kids) && KidsReflect(fac, bd.blocks, kids) && key in bd.params
    requires Source(fac, kids, key, bd.params[key]).Accepted?
    ensures var (k1, v) := Source(fac, kids, key, bd.params[key]).value;
            && KidsShape(k1) && KidsReflect(fac, bd.blocks, k1)
            && Start(fac, OwnOrigin(bd, key)) == Some(v)
            && Feeds(Cfgs(k1)) == Feeds(Cfgs(kids)) + DescFeeds(bd.params, {key}) && Uses(Cfgs(k1)) == Uses(Cfgs(kids))
  {
    hide BodyReflects, EdgeReflects, GetVariable, Feeds, Uses;
    var pd := bd.params[key];
    var (k1, v) := Source(fac, kids, key, pd).value;
    SourceKeepsShape(fac, kids, key, pd);
    if pd.srcBlock == "" {
      assert DescFeeds(bd.params, {key}) == {};
    } else {
      KidsFoundAlike(kids, bd.blocks, pd.srcBlock, 0);
      var i := FindKid(kids, pd.srcBlock, 0).value;
      var name := OrOwn(pd.srcName, key);
      LookupIsDescribed(fac, bd.blocks[i].desc, kids[i].cfg, kids[i].st, name);
      OwnWiresDoNotMatter(fac, bd.blocks[i].desc, kids[i].cfg, kids[i].st, kids[i].cfg.use,
        kids[i].cfg.ret[key := name]);
      FeedAdded(kids, i, key, name);
      assert DescFeeds(bd.params, {key}) == {Wire(pd.srcBlock, name, key)};
    }
  }

  lemma DestReflects(fac: Factory, blocks: seq<NamedBlock>, kids: seq<Tree>, key: string, ty: Ty, d: Dest)
    requires KidsShape(kids) && KidsReflect(fac, blocks, kids) && AddDest(kids, key, ty, d).Accepted?
    ensures var k1 := AddDest(kids, key, ty, d).value;
            && KidsShape(k1) && KidsReflect(fac, blocks, k1)
            && Uses(Cfgs(k1)) == Uses(Cfgs(kids)) + {Wire(d.block, OrOwn(d.name, key), key)}
            && Feeds(Cfgs(k1)) == Feeds(Cfgs(kids))
  {
    hide BodyReflects, EdgeReflects, GetVariable, Feeds, Uses;
    AddDestKeepsShape(kids, key, ty, d);
    var i := FindKid(kids, d.block, 0).value;
    var name := OrOwn(d.name, key);
    OwnWiresDoNotMatter(fac, blocks[i].desc, kids[i].cfg, kids[i].st, kids[i].cfg.use[name := key], kids[i].cfg.ret);
    UseWireAdded(kids, i, name, key);
  }

  lemma {:induction false} DestsReflect(fac: Factory, blocks: seq<NamedBlock>, kids: seq<Tree>, key: string, ty: Ty,
                                        ds: seq<Dest>)
    requires KidsShape(kids) && KidsReflect(fac, blocks, kids) && AddDests(kids, key, ty, ds).Accepted?
    ensures var k1 := AddDests(kids, key, ty, ds).value;
            && KidsReflect(fac, blocks, k1) && Uses(Cfgs(k1)) == Uses(Cfgs(kids)) + UsesOf(key, ds)
            && Feeds(Cfgs(k1)) == Feeds(Cfgs(kids))
    decreases ds
  {
    hide KidsReflect, AddDest, Feeds, Uses;
    if ds == [] {
      assert UsesOf(key, ds) == {};
    } else {
      DestReflects(fac, blocks, kids, key, ty, ds[0]);
      DestsReflect(fac, blocks, AddDest(kids, key, ty, ds[0]).value, key, ty, ds[1..]);
      UsesOfFirst(key, ds);
    }
  }

  lemma UsesOfFirst(key: string, ds: seq<Dest>)
    requires ds != []
    ensures UsesOf(key, ds) == {Wire(ds[0].block, OrOwn(ds[0].name, key), key)} + UsesOf(key, ds[1..])
  {
    assert forall d :: d in ds <==> d == ds[0] || d in ds[1..];
  }

  lemma ParamReflects(fac: Factory, bd: BlockDesc, kids: seq<Tree>, vars: Vars, key: string)
    requires KidsShape(kids) && KidsReflect(fac, bd.blocks, kids) && key in bd.params
    requires AddParam(fac, kids, vars, key, bd.params[key]).Accepted?
    ensures var (k1, vs) := AddParam(fac, kids, vars, key, bd.params[key]).value;
            && KidsReflect(fac, bd.blocks, k1)
            && Feeds(Cfgs(k1)) == Feeds(Cfgs(kids)) + DescFeeds(bd.params, {key})
            && Uses(Cfgs(k1)) == Uses(Cfgs(kids)) + DescUses(bd.params, {key})
            && key !in vars && key in vs && vs == vars[key := vs[key]]
            && Start(fac, OwnOrigin(bd, key)) == Some(vs[key].val)
  {
    hide Source, AddDests, KidsReflect, Feeds, Uses;
    var pd := bd.params[key];
    SourceReflects(fac, bd, kids, key);
    var (k0, v) := Source(fac, kids, key, pd).value;
    DestsReflect(fac, bd.blocks, k0, key, TypeOf(v), pd.dests);
    assert DescUses(bd.params, {key}) == UsesOf(key, pd.dests);
  }

  /** The state of the loop after the variables in vars. */
  ghost predicate Progress(fac: Factory, bd: BlockDesc, kids: seq<Tree>, vars: Vars)
    requires KidsShape(kids)
  {
    && KidsReflect(fac, bd.blocks, kids)
    && (forall k <- vars :: Start(fac, OwnOrigin(bd, k)) == Some(vars[k].val))
    && Feeds(Cfgs(kids)) == DescFeeds(bd.params, vars.Keys)
    && Uses(Cfgs(kids)) == DescUses(bd.params, vars.Keys)
  }

  lemma ParamProgress(fac: Factory, bd: BlockDesc, kids: seq<Tree>, vars: Vars, key: string)
    requires KidsShape(kids) && Progress(fac, bd, kids, vars) && key in bd.params
    requires AddParam(fac, kids, vars, key, bd.params[key]).Accepted?
    ensures var (k1, vs) := AddParam(fac, kids, vars, key, bd.params[key]).value;
            && Progress(fac, bd, k1, vs) && vs.Keys == vars.Keys + {key}
            && Uses(Cfgs(k1)) == Uses(Cfgs(kids)) + DescUses(bd.params, {key})
  {
    hide AddParam, KidsReflect, Feeds, Uses;
    ParamReflects(fac, bd, kids, vars, key);
    var (k1, vs) := AddParam(fac, kids, vars, key, bd.params[key]).value;
    assert vs.Keys == vars.Keys + {key};
    assert DescFeeds(bd.params, vs.Keys) == DescFeeds(bd.params, vars.Keys) + DescFeeds(bd.params, {key});
    assert DescUses(bd.params, vs.Keys) == DescUses(bd.params, vars.Keys) + DescUses(bd.params, {key});
  }

  lemma {:induction false} ParamsReflect(fac: Factory, bd: BlockDesc, kids: seq<Tree>, vars: Vars, keys: seq<string>)
    requires KidsShape(kids) && (forall k <- keys :: k in bd.params) && Progress(fac, bd, kids, vars)
    requires AddParams(fac, kids, vars, keys, bd.params).Accepted?
    ensures var (k1, vs) := AddParams(fac, kids, vars, keys, bd.params).value;
            Progress(fac, bd, k1, vs) && vs.Keys == vars.Keys + set k | k in keys
    decreases keys
  {
    hide AddParam, Progress;
    if keys != [] {
      var key := keys[0];
      assert keys == [key] + keys[1..];
      ParamProgress(fac, bd, kids, vars, key);
      var (k1, vs) := AddParam(fac, kids, vars, key, bd.params[key]).value;
      ParamsReflect(fac, bd, k1, vs, keys[1..]);
    }
  }

  // ----- the initial states -----

  lemma {:induction false} StateReflects(fac: Factory, tree: Tree, bd: BlockDesc, keys: seq<string>,
                                         texts: map<string, string>, setup: Params)
    requires Shape(tree.cfg, tree.st) && (forall k <- keys :: k in texts) && BodyReflects(fac, bd, tree.cfg, tree.st)
    requires forall k <- setup ::
               k in texts && KeyReads(fac, bd, k, texts[k]) && ReadAs(fac, bd, k, texts[k]) == Some(setup[k])
    requires ReadState(fac, tree, bd.params, keys, texts, setup).Accepted?
    ensures var r := ReadState(fac, tree, bd.params, keys, texts, setup).value;
            && r.Keys == setup.Keys + (set k | k in keys)
            && forall k <- r :: k in texts && KeyReads(fac, bd, k, texts[k]) &&
                 ReadAs(fac, bd, k, texts[k]) == Some(r[k])
    decreases keys
  {
    hide BodyReflects, GetVariable;
    if keys != [] {
      var k := keys[0];
      assert keys == [k] + keys[1..];
      LookupIsDescribed(fac, bd, tree.cfg, tree.st, k);
      var v := GetVariable(tree.cfg, tree.st, k).value;
      StateReflects(fac, tree, bd, keys[1..], texts, setup[k := fac.parse(TypeOf(v), texts[k]).value]);
    }
  }

  /** The initial states are no part of the body. */
  lemma EdgesAreNoBody(fac: Factory, bd: BlockDesc, tree: Tree, on: Params, off: Params)
    requires Shape(tree.cfg, tree.st) && BodyReflects(fac, bd, tree.cfg, tree.st)
    ensures var c := tree.cfg.(on := on, off := off); Shape(c, tree.st) && BodyReflects(fac, bd, c, tree.st)
  {
  }

  lemma {:induction false} StatesReflect(fac: Factory, tree: Tree, bd: BlockDesc, keys: seq<string>)
    requires Shape(tree.cfg, tree.st) && (forall k <- keys :: k in bd.states) &&
             BodyReflects(fac, bd, tree.cfg, tree.st)
    requires AddStates(fac, tree, bd.params, keys, bd.states).Accepted?
    ensures var t := AddStates(fac, tree, bd.params, keys, bd.states).value;
            && BodyReflects(fac, bd, t.cfg, t.st)
            && (if POWER_ON in keys then EdgeReflects(fac, bd, bd.states[POWER_ON], t.cfg.on)
                 else t.cfg.on == tree.cfg.on)
            && (if POWER_OFF in keys then EdgeReflects(fac, bd, bd.states[POWER_OFF], t.cfg.off)
                 else t.cfg.off == tree.cfg.off)
            && (forall k <- keys :: k == POWER_ON || k == POWER_OFF)
    decreases keys
  {
    hide ReadState, KeyReads, ReadAs, BodyReflects;
    if keys != [] {
      var k := keys[0];
      assert keys == [k] + keys[1..];
      var texts := SortedKeys(bd.states[k].Keys);
      StateReflects(fac, tree, bd, texts, bd.states[k], map[]);
      var setup := ReadState(fac, tree, bd.params, texts, bd.states[k], map[]).value;
      assert EdgeReflects(fac, bd, bd.states[k], setup);
      var cfg1 := if k == POWER_ON then tree.cfg.(on := setup) else tree.cfg.(off := setup);
      EdgesAreNoBody(fac, bd, tree, cfg1.on, cfg1.off);
      StatesReflect(fac, Tree(cfg1, tree.st), bd, keys[1..]);
    }
  }

  // ----- the whole tree -----

  lemma {:induction false} KidsAreDescribed(fac: Factory, bd: BlockDesc, i: nat)
    requires i <= |bd.blocks| && LoadKids(fac, bd, i).Accepted?
    ensures var kids := LoadKids(fac, bd, i).value;
            && KidsReflect(fac, bd.blocks[i..], kids)
            && forall k <- kids :: k.cfg.use == map[] && k.cfg.ret == map[]
    decreases bd, 0, |bd.blocks| - i
  {
    hide Load, Reflects;
    if i < |bd.blocks| {
      var kid := Load(fac, bd.blocks[i].name, bd.blocks[i].desc).value;
      var rest := LoadKids(fac, bd, i + 1).value;
      LoadIsDescribed(fac, bd.blocks[i].name, bd.blocks[i].desc);
      KidsAreDescribed(fac, bd, i + 1);
      forall k | 0 <= k < |rest| + 1
        ensures var t, b := ([kid] + rest)[k], bd.blocks[i..][k];
                t.cfg.name == b.name && Shape(t.cfg, t.st) && Reflects(fac, b.desc, t.cfg, t.st)
      {
        if k > 0 { assert ([kid] + rest)[k] == rest[k - 1] && bd.blocks[i..][k] == bd.blocks[i + 1..][k - 1]; }
      }
    }
  }

  lemma BareKidsHaveNoWires(kids: seq<Tree>)
    requires forall k <- kids :: k.cfg.use == map[] && k.cfg.ret == map[]
    ensures Feeds(Cfgs(kids)) == {} && Uses(Cfgs(kids)) == {}
  {
    forall i | 0 <= i < |kids| ensures Cfgs(kids)[i].use == map[] && Cfgs(kids)[i].ret == map[] {
      assert kids[i] in kids;
    }
  }

  lemma AssembledReflects(fac: Factory, name: string, bd: BlockDesc, kids: seq<Tree>, vars: Vars)
    requires KidsShape(kids) && Progress(fac, bd, kids, vars) && vars.Keys == bd.params.Keys
    ensures var t := Assemble(fac, name, bd, kids, vars); BodyReflects(fac, bd, t.cfg, t.st)
  {
    hide Reflects, Feeds, Uses, DescFeeds, DescUses;
    var t := Assemble(fac, name, bd, kids, vars);
    LoadedSubs(fac, SortedKeys(bd.subs.Keys), bd.subs);
    forall j | 0 <= j < |SortedKeys(bd.subs.Keys)| ensures SortedKeys(bd.subs.Keys)[j] in bd.subs {
      assert SortedKeys(bd.subs.Keys)[j] in SortedKeys(bd.subs.Keys);
    }
    assert t.cfg.children == Cfgs(kids);
  }

  /** The block over its finished children and variables, before its initial states are read. */
  lemma {:induction false} BodyIsDescribed(fac: Factory, name: string, bd: BlockDesc)
    requires LoadKids(fac, bd, 0).Accepted?
    requires AddParams(fac, LoadKids(fac, bd, 0).value, map[], SortedKeys(bd.params.Keys), bd.params).Accepted?
    ensures var (kids, vars) :=
            AddParams(fac, LoadKids(fac, bd, 0).value, map[], SortedKeys(bd.params.Keys), bd.params).value;
            var t := Assemble(fac, name, bd, kids, vars);
            BodyReflects(fac, bd, t.cfg, t.st)
    decreases bd, 1
  {
    hide AddParams, LoadKids, BodyReflects, KidsReflect;
    KidsAreDescribed(fac, bd, 0);
    var kids0 := LoadKids(fac, bd, 0).value;
    assert bd.blocks[0..] == bd.blocks;
    BareKidsHaveNoWires(kids0);
    var none: Vars := map[];
    assert DescFeeds(bd.params, none.Keys) == {} && DescUses(bd.params, none.Keys) == {};
    ParamsReflect(fac, bd, kids0, map[], SortedKeys(bd.params.Keys));
    var (kids, vars) := AddParams(fac, kids0, map[], SortedKeys(bd.params.Keys), bd.params).value;
    assert vars.Keys == bd.params.Keys;
    AssembledReflects(fac, name, bd, kids, vars);
  }

  /** An accepted description loads into exactly what it describes: every variable starts with the
      value its chain of sources leads to, and the wires and initial states are the described ones. */
  lemma {:induction false} LoadIsDescribed(fac: Factory, name: string, bd: BlockDesc)
    requires Load(fac, name, bd).Accepted?
    ensures var t := Load(fac, name, bd).value;
            && Reflects(fac, bd, t.cfg, t.st) && t.cfg.name == name && t.cfg.use == map[] && t.cfg.ret == map[]
    decreases bd, 2
  {
    hide AddStates, AddParams, LoadKids, BodyReflects, KeyReads, ReadAs;
    BodyIsDescribed(fac, name, bd);
    var (kids, vars) := AddParams(fac, LoadKids(fac, bd, 0).value, map[], SortedKeys(bd.params.Keys), bd.params).value;
    StatesReflect(fac, Assemble(fac, name, bd, kids, vars), bd, SortedKeys(bd.states.Keys));
  }
}
