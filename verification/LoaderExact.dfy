/** The loader's guarantees with their exact conditions, stated on the configuration: when an accepted
    model is well wired, when its wires hold from the start, and when decode crashes. */
module LoaderExact {
  import opened Common
  import opened StringOrder
  import opened Values
  import opened Engine
  import opened Names
  import opened Power
  import opened Soundness
  import opened Wires
  import opened Loader
  import opened LoaderSoundness
  import opened Described

  // ----- types and start values -----

  /** The types of the described variables. */
  function DescTypes(fac: Factory, bd: BlockDesc): map<string, Ty> {
    map k | k in bd.params && TypeAt(fac, OwnOrigin(bd, k)).Some? :: TypeAt(fac, OwnOrigin(bd, k)).value
  }

  lemma TypesAreDescribed(fac: Factory, bd: BlockDesc, cfg: Cfg, st: St)
    requires FactoryOk(fac) && Shape(cfg, st) && BodyReflects(fac, bd, cfg, st)
    ensures VarTypes(st.vars) == DescTypes(fac, bd)
  {
    forall k | k in bd.params ensures TypeAt(fac, OwnOrigin(bd, k)) == Some(TypeOf(st.vars[k].val)) {
      StartTyped(fac, OwnOrigin(bd, k));
    }
  }

  /** The types of the variables of an accepted model, and of whatever get_variable finds in it, are
      those of the description. */
  lemma LoadedTypes(fac: Factory, name: string, bd: BlockDesc)
    requires FactoryOk(fac) && Load(fac, name, bd).Accepted?
    ensures var t := Load(fac, name, bd).value;
            && VarTypes(t.st.vars) == DescTypes(fac, bd)
            && forall n :: match GetVariable(t.cfg, t.st, n)
                           case None => TypeAt(fac, Origin(bd, n)) == None
                           case Some(v) => TypeAt(fac, Origin(bd, n)) == Some(TypeOf(v))
  {
    hide Load, BodyReflects, GetVariable;
    LoadIsDescribed(fac, name, bd);
    var t := Load(fac, name, bd).value;
    TypesAreDescribed(fac, bd, t.cfg, t.st);
    forall n
      ensures match GetVariable(t.cfg, t.st, n)
              case None => TypeAt(fac, Origin(bd, n)) == None
              case Some(v) => TypeAt(fac, Origin(bd, n)) == Some(TypeOf(v))
    {
      LookupIsDescribed(fac, bd, t.cfg, t.st, n);
      StartTyped(fac, Origin(bd, n));
    }
  }

  /** The loader does not report a text that its type cannot read: a variable holds the value of the
      text it stems from if and only if that text has one; otherwise it holds the default. */
  lemma TextIsKeptIff(fac: Factory, name: string, bd: BlockDesc, k: string)
    requires Load(fac, name, bd).Accepted? && k in bd.params
    ensures var v := Load(fac, name, bd).value.st.vars;
            && k in v && OwnOrigin(bd, k).Some? && OwnOrigin(bd, k).value.ty in fac.types
    ensures var v := Load(fac, name, bd).value.st.vars[k].val;
            var o := OwnOrigin(bd, k).value;
            && (fac.parse(fac.types[o.ty], o.text) == Some(v) <==> fac.parse(fac.types[o.ty], o.text).Some?)
            && (fac.parse(fac.types[o.ty], o.text).None? ==> v == DefaultOf(fac.types[o.ty]))
  {
    hide Load;
    LoadIsDescribed(fac, name, bd);
    assert Start(fac, OwnOrigin(bd, k)) == Some(Load(fac, name, bd).value.st.vars[k].val);
  }

  // ----- well-wiredness -----

  /** A dotted name that is also the name of a described variable: the one a lookup finds has its type. */
  predicate NameAgrees(fac: Factory, bd: BlockDesc, name: string) {
    Plain(name) || (TypeAt(fac, OwnOrigin(bd, name)).Some? &&
      TypeAt(fac, Origin(bd, name)) == TypeAt(fac, OwnOrigin(bd, name)))
  }

  /** All wires of a block. */
  function Wirings(bd: BlockDesc): set<Wire> {
    DescFeeds(bd.params, bd.params.Keys) + DescUses(bd.params, bd.params.Keys)
  }

  /** Every name that an initial state or a wire uses agrees. */
  ghost predicate DescAgrees(fac: Factory, bd: BlockDesc)
    decreases bd
  {
    && (forall k <- Listed(bd, "вкл") :: NameAgrees(fac, bd, k))
    && (forall k <- Listed(bd, "выкл") :: NameAgrees(fac, bd, k))
    && forall i | 0 <= i < |bd.blocks| ::
         && (forall w <- Wirings(bd) :: w.block == bd.blocks[i].name ==> NameAgrees(fac, bd.blocks[i].desc, w.name))
         && DescAgrees(fac, bd.blocks[i].desc)
  }

  lemma AgreesAtIff(fac: Factory, bd: BlockDesc, cfg: Cfg, st: St, name: string)
    requires FactoryOk(fac) && Shape(cfg, st) && BodyReflects(fac, bd, cfg, st)
    ensures AgreesAt(cfg, st, name) <==> NameAgrees(fac, bd, name)
  {
    LookupIsDescribed(fac, bd, cfg, st, name);
    StartTyped(fac, OwnOrigin(bd, name));
    StartTyped(fac, Origin(bd, name));
  }

  /** The wires of one child. */
  lemma WiresOfChild(bd: BlockDesc, cfgs: seq<Cfg>, i: nat)
    requires |cfgs| == |bd.blocks| && i < |cfgs|
    requires forall k | 0 <= k < |cfgs| :: cfgs[k].name == bd.blocks[k].name
    requires forall k, j | 0 <= k < j < |cfgs| :: bd.blocks[k].name != bd.blocks[j].name
    requires Feeds(cfgs) == DescFeeds(bd.params, bd.params.Keys) && Uses(cfgs) == DescUses(bd.params, bd.params.Keys)
    ensures forall d :: d in cfgs[i].ret ==>
            Wire(cfgs[i].name, cfgs[i].ret[d], d) in DescFeeds(bd.params, bd.params.Keys)
    ensures forall n :: n in cfgs[i].use ==>
            Wire(cfgs[i].name, n, cfgs[i].use[n]) in DescUses(bd.params, bd.params.Keys)
    ensures forall w <- DescFeeds(bd.params, bd.params.Keys) ::
              w.block == bd.blocks[i].name ==> w.far in cfgs[i].ret && cfgs[i].ret[w.far] == w.name
    ensures forall w <- DescUses(bd.params, bd.params.Keys) ::
              w.block == bd.blocks[i].name ==> w.name in cfgs[i].use && cfgs[i].use[w.name] == w.far
  {
    hide DescFeeds, DescUses;
  }

  /** Agreement of the tree at one child is agreement of the description there. */
  lemma ChildAgreesIff(fac: Factory, bd: BlockDesc, cfg: Cfg, st: St, i: nat)
    requires FactoryOk(fac) && KeysDistinct(bd) && Shape(cfg, st) && BodyReflects(fac, bd, cfg, st) && i < |bd.blocks|
    ensures ((forall n {:trigger cfg.children[i].use[n]} | n in cfg.children[i].use ::
                AgreesAt(cfg.children[i], st.children[i], n)) &&
             (forall d {:trigger cfg.children[i].ret[d]} | d in cfg.children[i].ret ::
                AgreesAt(cfg.children[i], st.children[i], cfg.children[i].ret[d])))
            <==> forall w <- Wirings(bd) :: w.block == bd.blocks[i].name ==> NameAgrees(fac, bd.blocks[i].desc, w.name)
  {
    hide AgreesAt, NameAgrees, Feeds, Uses, DescFeeds, DescUses;
    var cc, c := cfg.children[i], st.children[i];
    WiresOfChild(bd, cfg.children, i);
    forall n ensures AgreesAt(cc, c, n) <==> NameAgrees(fac, bd.blocks[i].desc, n) {
      AgreesAtIff(fac, bd.blocks[i].desc, cc, c, n);
    }
    if forall w <- Wirings(bd) :: w.block == bd.blocks[i].name ==> NameAgrees(fac, bd.blocks[i].desc, w.name) {
      forall n | n in cc.use ensures AgreesAt(cc, c, n) { assert Wire(cc.name, n, cc.use[n]) in Wirings(bd); }
      forall d | d in cc.ret ensures AgreesAt(cc, c, cc.ret[d]) { assert Wire(cc.name, cc.ret[d], d) in Wirings(bd); }
    }
  }

  lemma EdgeAgreesIff(fac: Factory, bd: BlockDesc, cfg: Cfg, st: St, texts: map<string, string>, edge: Params)
    requires FactoryOk(fac) && Shape(cfg, st) && BodyReflects(fac, bd, cfg, st) && edge.Keys == texts.Keys
    ensures (forall k {:trigger edge[k]} | k in edge :: AgreesAt(cfg, st, k)) <==>
            forall k <- texts :: NameAgrees(fac, bd, k)
  {
    hide AgreesAt, NameAgrees, BodyReflects;
    forall n ensures AgreesAt(cfg, st, n) <==> NameAgrees(fac, bd, n) { AgreesAtIff(fac, bd, cfg, st, n); }
    assert forall k :: k in edge <==> k in texts;
  }

  lemma {:induction false} DottedAgreeIff(fac: Factory, bd: BlockDesc, cfg: Cfg, st: St)
    requires FactoryOk(fac) && KeysDistinct(bd) && Shape(cfg, st) && Reflects(fac, bd, cfg, st)
    ensures DottedAgree(cfg, st) <==> DescAgrees(fac, bd)
    decreases bd
  {
    hide AgreesAt, NameAgrees, Feeds, Uses, Wirings, DescFeeds, DescUses, Listed;
    EdgeAgreesIff(fac, bd, cfg, st, Listed(bd, "вкл"), cfg.on);
    EdgeAgreesIff(fac, bd, cfg, st, Listed(bd, "выкл"), cfg.off);
    forall i | 0 <= i < |bd.blocks|
      ensures DottedAgree(cfg.children[i], st.children[i]) <==> DescAgrees(fac, bd.blocks[i].desc)
      ensures ((forall n {:trigger cfg.children[i].use[n]} | n in cfg.children[i].use ::
                  AgreesAt(cfg.children[i], st.children[i], n)) &&
               (forall d {:trigger cfg.children[i].ret[d]} | d in cfg.children[i].ret ::
                  AgreesAt(cfg.children[i], st.children[i], cfg.children[i].ret[d])))
              <==> forall w <- Wirings(bd) :: w.block == bd.blocks[i].name ==>
                NameAgrees(fac, bd.blocks[i].desc, w.name)
    {
      DottedAgreeIff(fac, bd.blocks[i].desc, cfg.children[i], st.children[i]);
      ChildAgreesIff(fac, bd, cfg, st, i);
    }
  }

  /** What the loader guarantees of every accepted configuration, and the condition on the configuration
      under which, and only under which, that is well-wiredness. */
  lemma LoaderSoundIff(fac: Factory, name: string, bd: BlockDesc)
    requires FactoryOk(fac) && KeysDistinct(bd) && Load(fac, name, bd).Accepted?
    ensures var t := Load(fac, name, bd).value;
            && PathWired(t.cfg, t.st) && Pristine(t.cfg, t.st) && FeedUnique(t.cfg)
            && (WellWired(t.cfg, t.st) <==> DescAgrees(fac, bd))
  {
    LoadedGood(fac, name, bd);
    LoadIsDescribed(fac, name, bd);
    var t := Load(fac, name, bd).value;
    WellWiredIffDottedAgree(t.cfg, t.st);
    DottedAgreeIff(fac, bd, t.cfg, t.st);
  }

  // ----- functions that keep to the types -----

  /** The functions of the described subprograms keep to the described types. */
  ghost predicate DescRespects(env: Env, fac: Factory, bd: BlockDesc, upTypes: map<string, Ty>)
    decreases bd
  {
    && (forall k <- bd.subs :: SubTyped(env, DescSub(fac, k, bd.subs[k]), DescTypes(fac, bd), upTypes))
    && forall i | 0 <= i < |bd.blocks| :: DescRespects(env, fac, bd.blocks[i].desc, DescTypes(fac, bd))
  }

  lemma SubsRespectIff(env: Env, fac: Factory, bd: BlockDesc, cfg: Cfg, st: St, types: map<string, Ty>,
                       upTypes: map<string, Ty>)
    requires Shape(cfg, st) && SubsReflect(fac, bd, cfg, st)
    ensures (forall j | 0 <= j < |cfg.subs| :: SubTyped(env, cfg.subs[j], types, upTypes)) <==>
            forall k <- bd.subs :: SubTyped(env, DescSub(fac, k, bd.subs[k]), types, upTypes)
  {
    hide SubTyped, DescSub;
    var keys := SortedKeys(bd.subs.Keys);
    forall k | k in bd.subs ensures exists j :: 0 <= j < |keys| && keys[j] == k { assert k in keys; }
    if forall j | 0 <= j < |cfg.subs| :: SubTyped(env, cfg.subs[j], types, upTypes) {
      forall k | k in bd.subs ensures SubTyped(env, DescSub(fac, k, bd.subs[k]), types, upTypes) {
        var j :| 0 <= j < |keys| && keys[j] == k;
        assert SubTyped(env, cfg.subs[j], types, upTypes);
      }
    }
  }

  lemma {:induction false} RespectsIff(env: Env, fac: Factory, bd: BlockDesc, cfg: Cfg, st: St,
                                       upTypes: map<string, Ty>)
    requires FactoryOk(fac) && Shape(cfg, st) && Reflects(fac, bd, cfg, st)
    ensures RespectsTypes(env, cfg, st, upTypes) <==> DescRespects(env, fac, bd, upTypes)
    decreases bd
  {
    hide SubTyped, Feeds, Uses, DescTypes, SubsReflect;
    TypesAreDescribed(fac, bd, cfg, st);
    SubsRespectIff(env, fac, bd, cfg, st, VarTypes(st.vars), upTypes);
    forall i | 0 <= i < |bd.blocks|
      ensures RespectsTypes(env, cfg.children[i], st.children[i], VarTypes(st.vars)) <==>
              DescRespects(env, fac, bd.blocks[i].desc, DescTypes(fac, bd))
    {
      RespectsIff(env, fac, bd.blocks[i].desc, cfg.children[i], st.children[i], VarTypes(st.vars));
    }
  }

  // ----- wires that hold from the start -----

  /** All wires of child i hold. */
  ghost predicate HoldAll(cfg: Cfg, st: St, i: nat)
    requires Shape(cfg, st) && i < |cfg.children|
  {
    forall d | d in cfg.children[i].ret :: WireHolds(cfg, st, i, d)
  }

  /** All wires of the tree hold. */
  ghost predicate AllHold(cfg: Cfg, st: St)
    requires Shape(cfg, st)
    decreases cfg
  {
    forall i | 0 <= i < |cfg.children| :: HoldAll(cfg, st, i) && AllHold(cfg.children[i], st.children[i])
  }

  /** The variable that bears the name starts with the value of the one that a lookup finds. */
  predicate StartsAlike(fac: Factory, bd: BlockDesc, name: string) {
    Start(fac, Origin(bd, name)) == Start(fac, OwnOrigin(bd, name))
  }

  /** This is so for the source of every wire. */
  ghost predicate SourcesAgree(fac: Factory, bd: BlockDesc)
    decreases bd
  {
    forall i | 0 <= i < |bd.blocks| ::
      && (forall w <- DescFeeds(bd.params, bd.params.Keys) ::
            w.block == bd.blocks[i].name ==> StartsAlike(fac, bd.blocks[i].desc, w.name))
      && SourcesAgree(fac, bd.blocks[i].desc)
  }

  lemma StartHoldsIff(fac: Factory, bd: BlockDesc, cfg: Cfg, st: St, i: nat, d: string)
    requires Shape(cfg, st) && BodyReflects(fac, bd, cfg, st) && i < |bd.blocks| && d in cfg.children[i].ret
    requires ChildWired(cfg.children[i], st.children[i], st.vars)
    ensures WireHolds(cfg, st, i, d) <==> StartsAlike(fac, bd.blocks[i].desc, cfg.children[i].ret[d])
  {
    hide GetVariable;
    var _ := cfg.children[i].ret[d];
    LookupIsDescribed(fac, bd.blocks[i].desc, cfg.children[i], st.children[i], cfg.children[i].ret[d]);
  }

  lemma ChildHoldsIff(fac: Factory, bd: BlockDesc, cfg: Cfg, st: St, i: nat)
    requires KeysDistinct(bd) && Shape(cfg, st) && BodyReflects(fac, bd, cfg, st) && i < |bd.blocks|
    requires ChildWired(cfg.children[i], st.children[i], st.vars)
    ensures HoldAll(cfg, st, i) <==>
            forall w <- DescFeeds(bd.params, bd.params.Keys) ::
              w.block == bd.blocks[i].name ==> StartsAlike(fac, bd.blocks[i].desc, w.name)
  {
    hide WireHolds, StartsAlike, Feeds, Uses, DescFeeds, DescUses, ChildWired;
    var cc := cfg.children[i];
    WiresOfChild(bd, cfg.children, i);
    forall d | d in cc.ret ensures WireHolds(cfg, st, i, d) <==> StartsAlike(fac, bd.blocks[i].desc, cc.ret[d]) {
      StartHoldsIff(fac, bd, cfg, st, i, d);
    }
  }

  /** The wires of an accepted model all hold from the start if and only if this is so. */
  lemma {:induction false} AllHoldIff(fac: Factory, bd: BlockDesc, cfg: Cfg, st: St)
    requires KeysDistinct(bd) && Shape(cfg, st) && Reflects(fac, bd, cfg, st) && PathWired(cfg, st)
    ensures AllHold(cfg, st) <==> SourcesAgree(fac, bd)
    decreases bd
  {
    hide HoldAll, StartsAlike, Feeds, Uses, DescFeeds;
    forall i | 0 <= i < |bd.blocks|
      ensures HoldAll(cfg, st, i) <==>
              forall w <- DescFeeds(bd.params, bd.params.Keys) ::
                w.block == bd.blocks[i].name ==> StartsAlike(fac, bd.blocks[i].desc, w.name)
      ensures AllHold(cfg.children[i], st.children[i]) <==> SourcesAgree(fac, bd.blocks[i].desc)
    {
      ChildHoldsIff(fac, bd, cfg, st, i);
      AllHoldIff(fac, bd.blocks[i].desc, cfg.children[i], st.children[i]);
    }
  }

  lemma {:induction false} AllHoldIsCoherent(cfg: Cfg, st: St)
    requires Shape(cfg, st) && AllHold(cfg, st)
    ensures Coherent(cfg, st)
    decreases cfg
  {
    forall i | 0 <= i < |cfg.children| ensures HoldAll(cfg, st, i) && Coherent(cfg.children[i], st.children[i]) {
      AllHoldIsCoherent(cfg.children[i], st.children[i]);
    }
  }

  // ----- functions that leave fed variables alone -----

  predicate DescFed(bd: BlockDesc, k: string) {
    k in bd.params && bd.params[k].srcBlock != ""
  }

  ghost predicate SubAvoidsDesc(env: Env, bd: BlockDesc, sc: SubCfg) {
    forall t: real, d: real, v: Params, u: Params {:trigger CallFn(env, sc, t, d, v, u)} |
      CallFn(env, sc, t, d, v, u).Ok? :: forall k <- CallFn(env, sc, t, d, v, u).value :: !DescFed(bd, k)
  }

  /** No described subprogram writes a variable that is described as fed by a child. */
  ghost predicate DescAvoidsFed(env: Env, fac: Factory, bd: BlockDesc)
    decreases bd
  {
    && (forall k <- bd.subs :: SubAvoidsDesc(env, bd, DescSub(fac, k, bd.subs[k])))
    && forall i | 0 <= i < |bd.blocks| :: DescAvoidsFed(env, fac, bd.blocks[i].desc)
  }

  /** The fed variables of the tree are the described ones. */
  lemma FedIff(fac: Factory, bd: BlockDesc, cfg: Cfg, st: St, k: string)
    requires Shape(cfg, st) && BodyReflects(fac, bd, cfg, st)
    ensures NotFed(cfg, k) <==> !DescFed(bd, k)
  {
    if DescFed(bd, k) {
      assert Wire(bd.params[k].srcBlock, OrOwn(bd.params[k].srcName, k), k) in Feeds(cfg.children);
    }
    forall i | 0 <= i < |cfg.children| && k in cfg.children[i].ret ensures DescFed(bd, k) {
      assert Wire(cfg.children[i].name, cfg.children[i].ret[k], k) in Feeds(cfg.children);
    }
  }

  lemma {:induction false} TidyAsDescribed(env: Env, fac: Factory, bd: BlockDesc, cfg: Cfg, st: St)
    requires Shape(cfg, st) && Reflects(fac, bd, cfg, st) && FeedUnique(cfg) && DescAvoidsFed(env, fac, bd)
    ensures Tidy(env, cfg)
    decreases bd
  {
    hide Feeds, Uses, NotFed, DescFed;
    forall k ensures NotFed(cfg, k) <==> !DescFed(bd, k) { FedIff(fac, bd, cfg, st, k); }
    var keys := SortedKeys(bd.subs.Keys);
    forall j | 0 <= j < |cfg.subs| ensures SubAvoidsFed(env, cfg, cfg.subs[j]) {
      assert keys[j] in keys && SubAvoidsDesc(env, bd, DescSub(fac, keys[j], bd.subs[keys[j]]));
    }
    forall i | 0 <= i < |cfg.children| ensures Tidy(env, cfg.children[i]) {
      TidyAsDescribed(env, fac, bd.blocks[i].desc, cfg.children[i], st.children[i]);
    }
  }

  // ----- a loaded model before its first step -----

  lemma {:induction false} PristineFacts(cfg: Cfg, st: St)
    requires Shape(cfg, st) && Pristine(cfg, st)
    ensures OnlyBenign(cfg, st) && DarkBelow(cfg, st)
    decreases cfg
  {
    forall i | 0 <= i < |cfg.children|
      ensures OnlyBenign(cfg.children[i], st.children[i])
      ensures !st.children[i].power && DarkBelow(cfg.children[i], st.children[i])
    {
      PristineFacts(cfg.children[i], st.children[i]);
    }
  }

  /** An accepted configuration whose names agree is ready for steps: it is well wired, dark, unlocked
      and without messages, and its functions keep to the types as described. */
  lemma LoadedReady(fac: Factory, name: string, bd: BlockDesc, env: Env)
    requires FactoryOk(fac) && KeysDistinct(bd) && Load(fac, name, bd).Accepted?
    requires DescAgrees(fac, bd) && DescRespects(env, fac, bd, map[])
    ensures var t := Load(fac, name, bd).value;
            && WellWired(t.cfg, t.st) && RespectsTypes(env, t.cfg, t.st, map[]) && OnlyBenign(t.cfg, t.st)
            && Pristine(t.cfg, t.st) && DarkBelow(t.cfg, t.st) && t.cfg.use == map[] && t.cfg.ret == map[]
  {
    LoaderSoundIff(fac, name, bd);
    LoadIsDescribed(fac, name, bd);
    var t := Load(fac, name, bd).value;
    RespectsIff(env, fac, bd, t.cfg, t.st, map[]);
    PristineFacts(t.cfg, t.st);
  }

  /** Its wires hold as well if the sources agree in value and no function writes a fed variable. */
  lemma LoadedWired(fac: Factory, name: string, bd: BlockDesc, env: Env)
    requires FactoryOk(fac) && KeysDistinct(bd) && Load(fac, name, bd).Accepted?
    requires SourcesAgree(fac, bd) && DescAvoidsFed(env, fac, bd)
    ensures var t := Load(fac, name, bd).value; Coherent(t.cfg, t.st) && Tidy(env, t.cfg)
  {
    LoadedGood(fac, name, bd);
    LoadIsDescribed(fac, name, bd);
    var t := Load(fac, name, bd).value;
    AllHoldIff(fac, bd, t.cfg, t.st);
    AllHoldIsCoherent(t.cfg, t.st);
    TidyAsDescribed(env, fac, bd, t.cfg, t.st);
  }
}
