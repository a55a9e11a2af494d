/** convert<shared_ptr<Block>>::decode from the creation of the block on: the wiring, type,
    power-operand and initial-state checks, over a configuration that has already been parsed. */
module Loader {
  import opened Common
  import opened StringOrder
  import opened Values
  import opened Engine
  import opened Names
  import opened Soundness
  import Formula

  // ----- the parsed configuration -----

  datatype Dest = Dest(block: string, name: string)

  /** An empty srcBlock means an own variable; an empty name means the name of the variable itself. */
  datatype ParamDesc = ParamDesc(ty: string, text: string, srcBlock: string, srcName: string, dests: seq<Dest>)

  datatype SubDesc = SubDesc(func: string, remap: map<string, string>, priority: real, cond: seq<string>)

  datatype BlockDesc = BlockDesc(
    period: real,
    priority: real,
    cond: seq<string>,
    params: map<string, ParamDesc>,
    blocks: seq<NamedBlock>,                   // a std::map, in key order
    subs: map<string, SubDesc>,
    states: map<string, map<string, string>>)

  datatype NamedBlock = NamedBlock(name: string, desc: BlockDesc)

  const POWER_ON := "вкл"
  const POWER_OFF := "выкл"

  /** The type factory, from_string and the wall clock at construction. */
  datatype Factory = Factory(types: map<string, Ty>, parse: (Ty, string) -> Option<Value>, funcs: set<string>,
    birth: real)

  predicate TypedParse(fac: Factory, ty: Ty, text: string) {
    fac.parse(ty, text).Some? ==> TypeOf(fac.parse(ty, text).value) == ty
  }

  ghost predicate FactoryOk(fac: Factory) {
    forall ty, text :: TypedParse(fac, ty, text)
  }

  // ----- the loaded block -----

  datatype Tree = Tree(cfg: Cfg, st: St)

  /** decode's answer; Crashed is the null dereference behind get_variable(...)->clone(). */
  datatype Loaded<+T> = Accepted(value: T) | Refused | Crashed

  /** get_variable: a dotted name goes to the children, any other to the own variables. */
  function GetVariable(cfg: Cfg, st: St, name: string): Option<Value>
    requires Shape(cfg, st)
    decreases cfg
  {
    var (h, t) := ExtractBlockName(name);
    if t != "" then
      FoundIsChild(cfg.children, h, 0);
      match FindChild(cfg.children, h, 0)
      case None => None
      case Some(i) => GetVariable(cfg.children[i], st.children[i], t)
    else if name in st.vars then Some(st.vars[name].val)
    else None
  }

  function FindKid(kids: seq<Tree>, name: string, i: nat): (r: Option<nat>)
    requires i <= |kids|
    ensures r.Some? ==> r.value < |kids| && kids[r.value].cfg.name == name
    decreases |kids| - i
  {
    if i == |kids| then None else if kids[i].cfg.name == name then Some(i) else FindKid(kids, name, i + 1)
  }

  ghost predicate KidsShape(kids: seq<Tree>) {
    forall k <- kids :: Shape(k.cfg, k.st)
  }

  function OrOwn(name: string, own: string): string {
    if name == "" then own else name
  }

  /** The value of a new variable: the text as its type, or the default where the text is no such value. */
  function Initial(fac: Factory, ty: Ty, text: string): Value {
    var v := fac.parse(ty, text);
    if v.Some? then v.value else DefaultOf(ty)
  }

  /** The source of variable key: a value of its type, or the wire from a child that feeds it. */
  function Source(fac: Factory, kids: seq<Tree>, key: string, pd: ParamDesc): Loaded<(seq<Tree>, Value)>
    requires KidsShape(kids)
  {
    if pd.srcBlock == "" then
      if pd.ty !in fac.types then Refused
      else
        Accepted((kids, Initial(fac, fac.types[pd.ty], pd.text)))
    else
      match FindKid(kids, pd.srcBlock, 0)
      case None => Refused
      case Some(i) =>
        var kid, name := kids[i], OrOwn(pd.srcName, key);
        match GetVariable(kid.cfg, kid.st, name)
        case None => Refused
        case Some(v) =>
          // add_return_param
          if name !in kid.st.vars || key in kid.cfg.ret then Refused
          else Accepted((kids[i := kid.(cfg := kid.cfg.(ret := kid.cfg.ret[key := name]))], v))
  }

  /** One destination of variable key. */
  function AddDest(kids: seq<Tree>, key: string, ty: Ty, d: Dest): Loaded<seq<Tree>>
    requires KidsShape(kids)
  {
    match FindKid(kids, d.block, 0)
    case None => Refused
    case Some(i) =>
      var kid, name := kids[i], OrOwn(d.name, key);
      match GetVariable(kid.cfg, kid.st, name)
      case None => Refused
      case Some(v) =>
        if TypeOf(v) != ty then Refused
        // add_use_param
        else if name !in kid.st.vars || name in kid.cfg.use then Refused
        else Accepted(kids[i := kid.(cfg := kid.cfg.(use := kid.cfg.use[name := key]))])
  }

  lemma SourceKeepsShape(fac: Factory, kids: seq<Tree>, key: string, pd: ParamDesc)
    requires KidsShape(kids) && Source(fac, kids, key, pd).Accepted?
    ensures KidsShape(Source(fac, kids, key, pd).value.0)
  {
  }

  lemma AddDestKeepsShape(kids: seq<Tree>, key: string, ty: Ty, d: Dest)
    requires KidsShape(kids) && AddDest(kids, key, ty, d).Accepted?
    ensures KidsShape(AddDest(kids, key, ty, d).value)
  {
  }

  function AddDests(kids: seq<Tree>, key: string, ty: Ty, ds: seq<Dest>): (r: Loaded<seq<Tree>>)
    requires KidsShape(kids)
    ensures r.Accepted? ==> KidsShape(r.value)
    decreases ds
  {
    if ds == [] then Accepted(kids)
    else
      match AddDest(kids, key, ty, ds[0])
      case Refused => Refused
      case Crashed => Crashed
      case Accepted(k1) => AddDestKeepsShape(kids, key, ty, ds[0]); AddDests(k1, key, ty, ds[1..])
  }

  function AddParam(fac: Factory, kids: seq<Tree>, vars: Vars, key: string,
                    pd: ParamDesc): (r: Loaded<(seq<Tree>, Vars)>)
    requires KidsShape(kids)
    ensures r.Accepted? ==> KidsShape(r.value.0)
  {
    match Source(fac, kids, key, pd)
    case Refused => Refused
    case Crashed => Crashed
    case Accepted(s) =>
      SourceKeepsShape(fac, kids, key, pd);
      match AddDests(s.0, key, TypeOf(s.1), pd.dests)
      case Refused => Refused
      case Crashed => Crashed
      case Accepted(k1) => if key in vars then Refused else Accepted((k1, vars[key := Var(s.1, false)]))
  }

  /** The loop over the variables in key order. */
  function AddParams(fac: Factory, kids: seq<Tree>, vars: Vars, keys: seq<string>,
                     params: map<string, ParamDesc>): (r: Loaded<(seq<Tree>, Vars)>)
    requires KidsShape(kids) && forall k <- keys :: k in params
    ensures r.Accepted? ==> KidsShape(r.value.0)
    decreases keys
  {
    if keys == [] then Accepted((kids, vars))
    else
      match AddParam(fac, kids, vars, keys[0], params[keys[0]])
      case Refused => Refused
      case Crashed => Crashed
      case Accepted(p) => AddParams(fac, p.0, p.1, keys[1..], params)
  }

  /** Every operand of a power condition is a variable of the parent. */
  predicate OperandsKnown(cond: seq<string>, params: map<string, ParamDesc>) {
    forall t <- cond :: t in Formula.LogicOps() || t in params
  }

  /** One named initial state, from the given keys on. */
  function ReadState(fac: Factory, tree: Tree, params: map<string, ParamDesc>, keys: seq<string>,
                     texts: map<string, string>, setup: Params): Loaded<Params>
    requires Shape(tree.cfg, tree.st) && forall k <- keys :: k in texts
    decreases keys
  {
    if keys == [] then Accepted(setup)
    else
      var k := keys[0];
      if k !in params then Refused
      else
        match GetVariable(tree.cfg, tree.st, k)
        case None => Crashed
        case Some(v) =>
          match fac.parse(TypeOf(v), texts[k])
          case None => Refused
          case Some(w) => ReadState(fac, tree, params, keys[1..], texts, setup[k := w])
  }

  /** The loop over the initial states in key order. */
  function AddStates(fac: Factory, tree: Tree, params: map<string, ParamDesc>, keys: seq<string>,
                     states: map<string, map<string, string>>): (r: Loaded<Tree>)
    requires Shape(tree.cfg, tree.st) && forall k <- keys :: k in states
    ensures r.Accepted? ==>
              r.value.st == tree.st && r.value.cfg == tree.cfg.(on := r.value.cfg.on, off := r.value.cfg.off)
    decreases keys
  {
    if keys == [] then Accepted(tree)
    else
      var k := keys[0];
      if k != POWER_ON && k != POWER_OFF then Refused
      else
        match ReadState(fac, tree, params, SortedKeys(states[k].Keys), states[k], map[])
        case Refused => Refused
        case Crashed => Crashed
        case Accepted(setup) =>
          var cfg1 := if k == POWER_ON then tree.cfg.(on := setup) else tree.cfg.(off := setup);
          AddStates(fac, Tree(cfg1, tree.st), params, keys[1..], states)
  }

  function LoadSub(fac: Factory, name: string, sd: SubDesc): SubCfg {
    SubCfg(name, sd.func, sd.remap, sd.priority, sd.cond, fac.birth)
  }

  function LoadSubs(fac: Factory, keys: seq<string>, subs: map<string, SubDesc>): (r: seq<SubCfg>)
    requires forall k <- keys :: k in subs
    ensures |r| == |keys|
  {
    if keys == [] then [] else [LoadSub(fac, keys[0], subs[keys[0]])] + LoadSubs(fac, keys[1..], subs)
  }

  /** The block over its finished children, variables and subprograms. */
  function Assemble(fac: Factory, name: string, bd: BlockDesc, kids: seq<Tree>, vars: Vars): (r: Tree)
    requires KidsShape(kids)
    ensures Shape(r.cfg, r.st)
  {
    var subs := LoadSubs(fac, SortedKeys(bd.subs.Keys), bd.subs);
    Tree(
      Cfg(name, bd.period, bd.priority, bd.cond, fac.birth, map[], map[], map[], map[],
          seq(|kids|, i requires 0 <= i < |kids| => kids[i].cfg), subs),
      St(vars, 0.0, 0.0, 0.0, false, false, {}, [],
         seq(|kids|, i requires 0 <= i < |kids| => kids[i].st),
         seq(|subs|, _ => SubSt(0.0, 0.0, false))))
  }

  function LoadKids(fac: Factory, bd: BlockDesc, i: nat): (r: Loaded<seq<Tree>>)
    requires i <= |bd.blocks|
    ensures r.Accepted? ==> KidsShape(r.value)
    decreases bd, 0, |bd.blocks| - i
  {
    if i == |bd.blocks| then Accepted([])
    else
      match Load(fac, bd.blocks[i].name, bd.blocks[i].desc)
      case Refused => Refused
      case Crashed => Crashed
      case Accepted(kid) =>
        match LoadKids(fac, bd, i + 1)
        case Refused => Refused
        case Crashed => Crashed
        case Accepted(rest) => Accepted([kid] + rest)
  }

  /** decode, with the name the parent gives the block. */
  function Load(fac: Factory, name: string, bd: BlockDesc): (r: Loaded<Tree>)
    ensures r.Accepted? ==> Shape(r.value.cfg, r.value.st)
    decreases bd, 1
  {
    match LoadKids(fac, bd, 0)
    case Refused => Refused
    case Crashed => Crashed
    case Accepted(kids0) =>
      if exists k <- bd.subs :: bd.subs[k].func !in fac.funcs then Refused
      else
        match AddParams(fac, kids0, map[], SortedKeys(bd.params.Keys), bd.params)
        case Refused => Refused
        case Crashed => Crashed
        case Accepted(p) =>
          if exists b <- p.0 :: !OperandsKnown(b.cfg.cond, bd.params) then Refused
          else if exists k <- bd.subs :: !OperandsKnown(bd.subs[k].cond, bd.params) then Refused
          else
            var tree := Assemble(fac, name, bd, p.0, p.1);
            AddStates(fac, tree, bd.params, SortedKeys(bd.states.Keys), bd.states)
  }
}
