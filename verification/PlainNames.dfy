/** Configurations whose variable names carry no path: they meet every condition of the loader's exact
    results, and decode never crashes on them. */
module PlainNames {
  import opened Common
  import opened Values
  import opened Engine
  import opened Names
  import opened Loader
  import opened LoaderSoundness
  import opened Described
  import opened LoaderExact
  import opened LoaderAnswers

  predicate PlainParam(key: string, pd: ParamDesc) {
    Plain(key) && Plain(OrOwn(pd.srcName, key)) && forall d <- pd.dests :: Plain(OrOwn(d.name, key))
  }

  /** No variable name of the configuration, own or referred to, has anything after a dot. */
  ghost predicate PlainDesc(bd: BlockDesc)
    decreases bd
  {
    && (forall k <- bd.params :: PlainParam(k, bd.params[k]))
    && forall i | 0 <= i < |bd.blocks| :: PlainDesc(bd.blocks[i].desc)
  }

  lemma PlainWirings(bd: BlockDesc)
    requires PlainDesc(bd)
    ensures forall w <- Wirings(bd) :: Plain(w.name)
  {
    forall w | w in Wirings(bd) ensures Plain(w.name) {
      assert w.far in bd.params && PlainParam(w.far, bd.params[w.far]);
    }
  }

  /** The names of an accepted plain configuration all agree in type. */
  lemma {:induction false} PlainAgrees(fac: Factory, bd: BlockDesc, cfg: Cfg, st: St)
    requires Shape(cfg, st) && Reflects(fac, bd, cfg, st) && PlainDesc(bd)
    ensures DescAgrees(fac, bd)
    decreases bd
  {
    hide Wirings, Feeds, Uses, DescFeeds, DescUses, Start, Plain, ReadAs;
    PlainWirings(bd);
    PlainListed(fac, bd, Listed(bd, "вкл"), cfg.on);
    PlainListed(fac, bd, Listed(bd, "выкл"), cfg.off);
    forall i | 0 <= i < |bd.blocks| ensures DescAgrees(fac, bd.blocks[i].desc) {
      PlainAgrees(fac, bd.blocks[i].desc, cfg.children[i], st.children[i]);
    }
  }

  lemma PlainListed(fac: Factory, bd: BlockDesc, texts: map<string, string>, edge: Params)
    requires PlainDesc(bd) && EdgeReflects(fac, bd, texts, edge)
    ensures forall k <- texts :: Plain(k)
  {
    forall k | k in texts ensures Plain(k) { assert k in edge && PlainParam(k, bd.params[k]); }
  }

  /** The sources of plain wires agree in start value. */
  lemma {:induction false} PlainStarts(fac: Factory, bd: BlockDesc)
    requires PlainDesc(bd)
    ensures SourcesAgree(fac, bd)
    decreases bd
  {
    hide Start, DescUses;
    PlainWirings(bd);
    forall i | 0 <= i < |bd.blocks| ensures SourcesAgree(fac, bd.blocks[i].desc) {
      PlainStarts(fac, bd.blocks[i].desc);
    }
    forall w | w in DescFeeds(bd.params, bd.params.Keys) ensures Plain(w.name) { assert w in Wirings(bd); }
  }

  lemma LoadedPlain(fac: Factory, name: string, bd: BlockDesc)
    requires Load(fac, name, bd).Accepted? && PlainDesc(bd)
    ensures DescAgrees(fac, bd) && SourcesAgree(fac, bd)
  {
    LoadIsDescribed(fac, name, bd);
    PlainAgrees(fac, bd, Load(fac, name, bd).value.cfg, Load(fac, name, bd).value.st);
    PlainStarts(fac, bd);
  }

  lemma {:induction false} PlainKidsNeverCrash(fac: Factory, bd: BlockDesc, i: nat)
    requires PlainDesc(bd) && i <= |bd.blocks|
    ensures !LoadKids(fac, bd, i).Crashed?
    decreases bd, 0, |bd.blocks| - i
  {
    if i < |bd.blocks| {
      PlainNeverCrashes(fac, bd.blocks[i].name, bd.blocks[i].desc);
      PlainKidsNeverCrash(fac, bd, i + 1);
    }
  }

  /** decode of a plain configuration accepts or refuses; it never follows a null pointer. */
  lemma {:induction false} PlainNeverCrashes(fac: Factory, name: string, bd: BlockDesc)
    requires PlainDesc(bd)
    ensures !Load(fac, name, bd).Crashed?
    decreases bd, 1
  {
    hide Load, AddStates, Connects, StateReads, KeyReads;
    PlainKidsNeverCrash(fac, bd, 0);
    LoadInStages(fac, name, bd);
    if Connects(fac, bd) {
      ConnectedReflects(fac, name, bd);
      AllStatesIff(fac, bd, Connected(fac, name, bd));
      forall k | k in bd.params ensures !KeyDangles(bd, k) { assert PlainParam(k, bd.params[k]); }
    }
  }
}
