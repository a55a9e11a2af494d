/** decode as it runs: a block under construction whose variables grow and whose children's wire
    tables change in nested loops that stop at the first fault. */
module LoaderObjects {
  import opened Common
  import opened StringOrder
  import opened Values
  import opened Engine
  import opened Names
  import opened Loader
  import Formula

  /** get_variable. */
  method FindVariable(cfg: Cfg, st: St, name: string) returns (v: Option<Value>)
    requires Shape(cfg, st)
    ensures v == GetVariable(cfg, st, name)
    decreases cfg
  {
    var (head, tail) := ExtractBlockName(name);
    if tail == "" {
      return if name in st.vars then Some(st.vars[name].val) else None;
    }
    for i := 0 to |cfg.children|
      invariant FindChild(cfg.children, head, i) == FindChild(cfg.children, head, 0)
    {
      if cfg.children[i].name == head {
        v := FindVariable(cfg.children[i], st.children[i], tail);
        return;
      }
    }
    return None;
  }

  class Builder {
    const fac: Factory
    const params: map<string, ParamDesc>
    var kids: seq<Tree>
    var vars: Vars

    constructor (fac: Factory, params: map<string, ParamDesc>, kids: seq<Tree>)
      ensures this.fac == fac && this.params == params && this.kids == kids && vars == map[]
    {
      this.fac, this.params, this.kids, vars := fac, params, kids, map[];
    }

    method FindKidByName(name: string) returns (r: Option<nat>)
      ensures r == FindKid(kids, name, 0)
    {
      for i := 0 to |kids|
        invariant FindKid(kids, name, i) == FindKid(kids, name, 0)
      {
        if kids[i].cfg.name == name { return Some(i); }
      }
      return None;
    }

    /** The source of a variable: a value of its type, or a wire from a child. */
    method ReadSource(key: string, pd: ParamDesc) returns (r: Loaded<Value>)
      requires KidsShape(kids)
      modifies this`kids
      ensures var s := Source(fac, old(kids), key, pd);
              r.Accepted? == s.Accepted? && r.Refused? == s.Refused? &&
              (r.Accepted? ==> KidsShape(kids) && s.value == (kids, r.value))
    {
      if pd.srcBlock == "" {
        if pd.ty !in fac.types { return Refused; }
        var v := fac.parse(fac.types[pd.ty], pd.text);
        return Accepted(if v.Some? then v.value else DefaultOf(fac.types[pd.ty]));
      }
      var found := FindKidByName(pd.srcBlock);
      if found.None? { return Refused; }
      var kid, name := kids[found.value], OrOwn(pd.srcName, key);
      assert kid in kids;
      var v := FindVariable(kid.cfg, kid.st, name);
      if v.None? || name !in kid.st.vars || key in kid.cfg.ret { return Refused; }
      SourceKeepsShape(fac, kids, key, pd);
      kids := kids[found.value := kid.(cfg := kid.cfg.(ret := kid.cfg.ret[key := name]))];
      return Accepted(v.value);
    }

    /** One wire into a child. */
    method ConnectDest(key: string, ty: Ty, d: Dest) returns (ok: bool)
      requires KidsShape(kids)
      modifies this`kids
      ensures var s := AddDest(old(kids), key, ty, d);
              ok == s.Accepted? && !s.Crashed? && (ok ==> KidsShape(kids) && s.value == kids)
    {
      var found := FindKidByName(d.block);
      if found.None? { return false; }
      var kid, name := kids[found.value], OrOwn(d.name, key);
      assert kid in kids;
      var v := FindVariable(kid.cfg, kid.st, name);
      if v.None? || TypeOf(v.value) != ty || name !in kid.st.vars || name in kid.cfg.use { return false; }
      AddDestKeepsShape(kids, key, ty, d);
      kids := kids[found.value := kid.(cfg := kid.cfg.(use := kid.cfg.use[name := key]))];
      return true;
    }

    /** The loop over the destinations of a variable. */
    method ConnectDests(key: string, ty: Ty, ds: seq<Dest>) returns (ok: bool)
      requires KidsShape(kids)
      modifies this`kids
      ensures var s := AddDests(old(kids), key, ty, ds);
              ok == s.Accepted? && !s.Crashed? && (ok ==> KidsShape(kids) && s.value == kids)
    {
      for i := 0 to |ds|
        invariant KidsShape(kids) && AddDests(kids, key, ty, ds[i..]) == AddDests(old(kids), key, ty, ds)
      {
        assert ds[i..][0] == ds[i] && ds[i..][1..] == ds[i + 1..];
        ok := ConnectDest(key, ty, ds[i]);
        if !ok { return; }
      }
      ok := true;
    }

    method AddVariable(key: string, pd: ParamDesc) returns (ok: bool)
      requires KidsShape(kids)
      modifies this`kids, this`vars
      ensures var s := AddParam(fac, old(kids), old(vars), key, pd);
              ok == s.Accepted? && !s.Crashed? && (ok ==> KidsShape(kids) && s.value == (kids, vars))
    {
      var source := ReadSource(key, pd);
      if !source.Accepted? { return false; }
      ok := ConnectDests(key, TypeOf(source.value), pd.dests);
      if !ok || key in vars { return false; }
      vars := vars[key := Var(source.value, false)];
    }

    /** The loop over the described variables. */
    method AddVariables() returns (ok: bool)
      requires KidsShape(kids) && vars == map[]
      modifies this`kids, this`vars
      ensures var s := AddParams(fac, old(kids), map[], SortedKeys(params.Keys), params);
              ok == s.Accepted? && !s.Crashed? && (ok ==> KidsShape(kids) && s.value == (kids, vars))
    {
      var keys := SortedKeys(params.Keys);
      for i := 0 to |keys|
        invariant KidsShape(kids)
        invariant AddParams(fac, kids, vars, keys[i..], params) == AddParams(fac, old(kids), map[], keys, params)
      {
        assert keys[i..][0] == keys[i] && keys[i..][1..] == keys[i + 1..];
        ok := AddVariable(keys[i], params[keys[i]]);
        if !ok { return; }
      }
      ok := true;
    }

    /** Every operand of a power condition has been described. */
    method CheckOperands(cond: seq<string>) returns (ok: bool)
      ensures ok == OperandsKnown(cond, params)
    {
      for i := 0 to |cond|
        invariant forall k | 0 <= k < i :: cond[k] in Formula.LogicOps() || cond[k] in params
      {
        if cond[i] !in Formula.LogicOps() && cond[i] !in params {
          assert cond[i] in cond;
          return false;
        }
      }
      return true;
    }

    method CheckKids() returns (ok: bool)
      ensures ok == forall b <- kids :: OperandsKnown(b.cfg.cond, params)
    {
      for i := 0 to |kids|
        invariant forall k | 0 <= k < i :: OperandsKnown(kids[k].cfg.cond, params)
      {
        ok := CheckOperands(kids[i].cfg.cond);
        if !ok {
          assert kids[i] in kids;
          return;
        }
      }
      ok := true;
    }

    method CheckSubs(subs: map<string, SubDesc>) returns (ok: bool)
      ensures ok == forall k <- subs :: OperandsKnown(subs[k].cond, params)
    {
      var keys := SortedKeys(subs.Keys);
      for i := 0 to |keys|
        invariant forall k | 0 <= k < i :: OperandsKnown(subs[keys[k]].cond, params)
      {
        ok := CheckOperands(subs[keys[i]].cond);
        if !ok { return; }
      }
      ok := true;
      forall k | k in subs ensures OperandsKnown(subs[k].cond, params) { assert k in keys; }
    }

    /** The loop over the values of one initial state. */
    method ReadSetup(tree: Tree, texts: map<string, string>) returns (r: Loaded<Params>)
      requires Shape(tree.cfg, tree.st)
      ensures r == ReadState(fac, tree, params, SortedKeys(texts.Keys), texts, map[])
    {
      var keys := SortedKeys(texts.Keys);
      var setup: Params := map[];
      for i := 0 to |keys|
        invariant ReadState(fac, tree, params, keys[i..], texts, setup) ==
                  ReadState(fac, tree, params, keys, texts, map[])
      {
        var k := keys[i];
        assert keys[i..][0] == k && keys[i..][1..] == keys[i + 1..];
        if k !in params { return Refused; }
        var v := FindVariable(tree.cfg, tree.st, k);
        if v.None? { return Crashed; }
        var w := fac.parse(TypeOf(v.value), texts[k]);
        if w.None? { return Refused; }
        setup := setup[k := w.value];
      }
      return Accepted(setup);
    }

    /** The loop over the initial states; tree is the block so far. */
    method ReadStates(tree: Tree, states: map<string, map<string, string>>) returns (r: Loaded<Tree>)
      requires Shape(tree.cfg, tree.st)
      ensures r == AddStates(fac, tree, params, SortedKeys(states.Keys), states)
    {
      var keys := SortedKeys(states.Keys);
      var t := tree;
      for i := 0 to |keys|
        invariant Shape(t.cfg, t.st)
        invariant AddStates(fac, t, params, keys[i..], states) == AddStates(fac, tree, params, keys, states)
      {
        var k := keys[i];
        assert keys[i..][0] == k && keys[i..][1..] == keys[i + 1..];
        if k != POWER_ON && k != POWER_OFF { return Refused; }
        var setup := ReadSetup(t, states[k]);
        match setup {
          case Refused => return Refused;
          case Crashed => return Crashed;
          case Accepted(s) => t := t.(cfg := if k == POWER_ON then t.cfg.(on := s) else t.cfg.(off := s));
        }
      }
      return Accepted(t);
    }
  }

  method CheckFunctions(fac: Factory, subs: map<string, SubDesc>) returns (ok: bool)
    ensures ok == forall k <- subs :: subs[k].func in fac.funcs
  {
    var keys := SortedKeys(subs.Keys);
    for i := 0 to |keys|
      invariant forall k | 0 <= k < i :: subs[keys[k]].func in fac.funcs
    {
      if subs[keys[i]].func !in fac.funcs { return false; }
    }
    forall k | k in subs ensures subs[k].func in fac.funcs { assert k in keys; }
    return true;
  }

  function Prepend(kids: seq<Tree>, rest: Loaded<seq<Tree>>): Loaded<seq<Tree>> {
    if rest.Accepted? then Accepted(kids + rest.value) else rest
  }

  lemma PrependMore(kids: seq<Tree>, more: seq<Tree>, rest: Loaded<seq<Tree>>)
    ensures Prepend([], rest) == rest
    ensures Prepend(kids, Prepend(more, rest)) == Prepend(kids + more, rest)
  {
    if rest.Accepted? {
      assert [] + rest.value == rest.value;
      assert kids + (more + rest.value) == kids + more + rest.value;
    }
  }

  lemma LoadKidsStep(fac: Factory, bd: BlockDesc, i: nat)
    requires i < |bd.blocks|
    ensures var kid := Load(fac, bd.blocks[i].name, bd.blocks[i].desc);
            LoadKids(fac, bd, i) == match kid
                                    case Refused => Refused
                                    case Crashed => Crashed
                                    case Accepted(t) => Prepend([t], LoadKids(fac, bd, i + 1))
  {
  }

  method DecodeKids(fac: Factory, bd: BlockDesc) returns (r: Loaded<seq<Tree>>)
    ensures r == LoadKids(fac, bd, 0)
    decreases bd, 0
  {
    var kids: seq<Tree> := [];
    PrependMore([], [], LoadKids(fac, bd, 0));
    for i := 0 to |bd.blocks|
      invariant LoadKids(fac, bd, 0) == Prepend(kids, LoadKids(fac, bd, i))
    {
      LoadKidsStep(fac, bd, i);
      var kid := Decode(fac, bd.blocks[i].name, bd.blocks[i].desc);
      match kid {
        case Refused => return Refused;
        case Crashed => return Crashed;
        case Accepted(t) =>
          PrependMore(kids, [t], LoadKids(fac, bd, i + 1));
          kids := kids + [t];
      }
    }
    assert kids + [] == kids;
    return Accepted(kids);
  }

  /** decode. */
  method Decode(fac: Factory, name: string, bd: BlockDesc) returns (r: Loaded<Tree>)
    ensures r == Load(fac, name, bd)
    decreases bd, 1
  {
    var kids0 := DecodeKids(fac, bd);
    match kids0 {
      case Refused => return Refused;
      case Crashed => return Crashed;
      case Accepted(kids) => r := Build(fac, name, bd, kids);
    }
  }

  /** decode from the creation of the block on. */
  method Build(fac: Factory, name: string, bd: BlockDesc, kids: seq<Tree>) returns (r: Loaded<Tree>)
    requires LoadKids(fac, bd, 0) == Accepted(kids)
    ensures r == Load(fac, name, bd)
    decreases bd, 0
  {
    var ok := CheckFunctions(fac, bd.subs);
    if !ok { return Refused; }
    var b := new Builder(fac, bd.params, kids);
    ok := b.AddVariables();
    if !ok { return Refused; }
    ok := b.CheckKids();
    if !ok { return Refused; }
    ok := b.CheckSubs(bd.subs);
    if !ok { return Refused; }
    r := b.ReadStates(Assemble(fac, name, bd, b.kids, b.vars), bd.states);
  }
}
