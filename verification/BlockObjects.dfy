/** Block, Callable and Subprogram as the objects they are.  Every method is proved to do to the
    fields of the whole tree what the functions of Engine say. */
module BlockObjects {
  import opened Common
  import opened StringOrder
  import opened Values
  import opened Engine
  import Formula
  import Remap

  /** The loops over _res_vars. */
  method ReadThrough(ret: map<string, string>, src: Params) returns (res: Params)
    ensures res == Through(ret, src)
  {
    res := map[];
    var keys := SortedKeys(ret.Keys);
    ghost var seen: map<string, string> := map[];
    for i := 0 to |keys|
      invariant forall k | 0 <= k < i :: keys[k] in seen
      invariant forall d {:trigger seen[d]} | d in seen :: d in ret && seen[d] == ret[d]
      invariant res == Through(seen, src)
    {
      var d := keys[i];
      if ret[d] in src { res := res[d := src[ret[d]]]; }
      ThroughAdd(seen, d, ret[d], src);
      seen := seen[d := ret[d]];
    }
    assert seen == ret;
  }

  lemma ThroughAdd(ret: map<string, string>, d: string, own: string, src: Params)
    requires d in ret ==> ret[d] == own
    ensures Through(ret[d := own], src) == if own in src then Through(ret, src)[d := src[own]] else Through(ret, src)
  {
  }

  lemma InsertAllSnoc(cs: seq<Cand>, c: Cand)
    ensures InsertAll([], cs + [c]) == Insert(InsertAll([], cs), c)
  {
    assert (cs + [c])[..|cs + [c]| - 1] == cs;
  }

  lemma ChildCandsStep(cfg: Cfg, st: St, time: real, i: nat)
    requires Shape(cfg, st) && i < |cfg.children|
    ensures var before := InsertAll([], ChildCands(cfg, st, time, i));
            InsertAll([], ChildCands(cfg, st, time, i + 1)) ==
            if Due(st.children[i], time) then Insert(before, Cand(cfg.children[i].priority, Child(i))) else before
  {
    var cs := ChildCands(cfg, st, time, i);
    InsertAllSnoc(cs, Cand(cfg.children[i].priority, Child(i)));
    assert cs + [] == cs;
  }

  lemma SubCandsStep(cfg: Cfg, st: St, kids: seq<Cand>, j: nat)
    requires Shape(cfg, st) && j < |cfg.subs|
    ensures var before := InsertAll([], kids + SubCands(cfg, st, j));
            InsertAll([], kids + SubCands(cfg, st, j + 1)) ==
            if !st.subs[j].blocked then Insert(before, Cand(cfg.subs[j].priority, Sub(j))) else before
  {
    var cs, c := SubCands(cfg, st, j), Cand(cfg.subs[j].priority, Sub(j));
    InsertAllSnoc(kids + cs, c);
    assert kids + (cs + [c]) == kids + cs + [c];
    assert cs + [] == cs;
  }

  class Subprogram {
    const cfg: SubCfg
    var last: real
    var delta: real
    var blocked: bool

    constructor (cfg: SubCfg)
      ensures this.cfg == cfg && View() == SubSt(0.0, 0.0, false)
    {
      this.cfg := cfg;
      last, delta, blocked := 0.0, 0.0, false;
    }

    ghost function View(): SubSt
      reads this
    {
      SubSt(last, delta, blocked)
    }

    method Touch(now: real)
      modifies this
      ensures View() == PreCallSub(cfg, old(View()), now)
    {
      var t := now - cfg.birth;
      delta := t - last;
      last := t;
    }

    /** operator(): note the time, then call. */
    method Invoke(env: Env, tick: Tick, vals: Params, up: Params) returns (o: Outcome<Params>)
      modifies this
      ensures View() == PreCallSub(cfg, old(View()), tick.now)
      ensures o == CallFn(env, cfg, tick.time, View().delta, vals, up)
    {
      Touch(tick.now);
      if cfg.func !in env { return Ok(map[]); }
      o := env[cfg.func](tick.time, delta, Remap.View(vals, cfg.remap), up);
      if o.Ok? {
        var res := Remap.RenameInPlace(o.value, cfg.remap);
        o := Ok(res);
      }
    }
  }

  class Block {
    const cfg: Cfg
    const children: seq<Block>
    const subs: seq<Subprogram>
    ghost const repr: set<object>

    var vars: Vars
    var plan: real
    var last: real
    var delta: real
    var blocked: bool
    var power: bool
    var errBlocks: set<string>
    var errors: seq<ErrorMsg>

    /** The objects form a tree that follows the configuration. */
    ghost predicate Valid()
      decreases cfg
    {
      && this in repr
      && |children| == |cfg.children| && |subs| == |cfg.subs|
      && (forall i | 0 <= i < |children| ::
            && children[i].cfg == cfg.children[i] && children[i] in repr && children[i].repr <= repr
            && this !in children[i].repr && children[i].Valid())
      && (forall i, j | 0 <= i < j < |children| :: children[i].repr !! children[j].repr)
      && (forall j | 0 <= j < |subs| :: subs[j].cfg == cfg.subs[j] && subs[j] in repr)
      && (forall i, j | 0 <= i < |children| && 0 <= j < |subs| :: subs[j] !in children[i].repr)
      && (forall i, j | 0 <= i < j < |subs| :: subs[i] != subs[j])
    }

    ghost function View(): (st: St)
      requires Valid()
      reads repr
      ensures Shape(cfg, st)
      decreases cfg
    {
      St(vars, plan, last, delta, blocked, power, errBlocks, errors,
         seq(|children|, i requires 0 <= i < |children| reads repr => children[i].View()),
         seq(|subs|, j requires 0 <= j < |subs| reads repr => subs[j].View()))
    }

    /** A block as the loader makes it, over already made children and subprograms. */
    constructor (cfg: Cfg, children: seq<Block>, subs: seq<Subprogram>, vars: Vars)
      requires |children| == |cfg.children| && |subs| == |cfg.subs|
      requires forall i | 0 <= i < |children| :: children[i].Valid() && children[i].cfg == cfg.children[i]
      requires forall i, j | 0 <= i < j < |children| :: children[i].repr !! children[j].repr
      requires forall j | 0 <= j < |subs| :: subs[j].cfg == cfg.subs[j]
      requires forall i, j | 0 <= i < |children| && 0 <= j < |subs| :: subs[j] !in children[i].repr
      requires forall i, j | 0 <= i < j < |subs| :: subs[i] != subs[j]
      ensures Valid() && this.cfg == cfg && this.children == children && this.subs == subs
      ensures View() == St(vars, 0.0, 0.0, 0.0, false, false, {}, [],
                           seq(|children|, i requires 0 <= i < |children| reads set x: object, c | c in children &&
                             x in c.repr :: x => children[i].View()),
                           seq(|subs|, j requires 0 <= j < |subs| reads set s | s in subs => subs[j].View()))
    {
      this.cfg, this.children, this.subs, this.vars := cfg, children, subs, vars;
      plan, last, delta, blocked, power, errBlocks, errors := 0.0, 0.0, 0.0, false, false, {}, [];
      repr := {this} + (set x: object, c | c in children && x in c.repr :: x) + (set s | s in subs);
    }

    twostate lemma ChildChanged(i: nat)
      requires Valid() && i < |children|
      requires unchanged(this)
      requires forall j | 0 <= j < |children| && j != i :: unchanged(children[j].repr)
      requires forall j | 0 <= j < |subs| :: unchanged(subs[j])
      ensures View() == old(View()).(children := old(View()).children[i := children[i].View()])
    {
      assert forall j | 0 <= j < |children| && j != i :: children[j].View() == old(children[j].View());
      assert View().children == old(View()).children[i := children[i].View()];
      assert View().subs == old(View()).subs;
    }

    twostate lemma SubChanged(j: nat)
      requires Valid() && j < |subs|
      requires unchanged(this)
      requires forall i | 0 <= i < |children| :: unchanged(children[i].repr)
      requires forall k | 0 <= k < |subs| && k != j :: unchanged(subs[k])
      ensures View() == old(View()).(subs := old(View()).subs[j := subs[j].View()])
    {
      assert forall i | 0 <= i < |children| :: children[i].View() == old(children[i].View());
      assert View().children == old(View()).children;
      assert View().subs == old(View()).subs[j := subs[j].View()];
    }

    /** Only fields of this object differ from the old state. */
    twostate predicate OnlyThisChanged()
      requires Valid()
      reads repr
    {
      View() == old(View()).(vars := vars, plan := plan, last := last, delta := delta, blocked := blocked,
                             power := power, errBlocks := errBlocks, errors := errors)
    }

    twostate lemma ThisChanged()
      requires Valid()
      requires forall i | 0 <= i < |children| :: unchanged(children[i].repr)
      requires forall k | 0 <= k < |subs| :: unchanged(subs[k])
      ensures OnlyThisChanged()
    {
      assert forall i | 0 <= i < |children| :: children[i].View() == old(children[i].View());
      assert View().children == old(View()).children;
      assert View().subs == old(View()).subs;
    }

    // ----- variables -----

    method WriteVariables(val: Params) returns (o: Outcome<set<string>>)
      modifies this`vars
      ensures (vars, o) == Write(old(vars), val)
    {
      var keys := SortedKeys(val.Keys);
      var done := {};
      for i := 0 to |keys|
        invariant WriteFrom(vars, keys[i..], val, done) == Write(old(vars), val)
      {
        var k := keys[i];
        if k in vars && !vars[k].locked {
          match CopyData(vars[k].val, val[k]) {
            case Throw(e) => return Throw(e);
            case Ok(c) => vars := vars[k := vars[k].(val := c.0)];
          }
          done := done + {k};
        }
      }
      return Ok(done);
    }

    /** write_poweron_vars and write_poweroff_vars. */
    method WriteEdgeVars(edge: Params) returns (o: Outcome<Params>)
      requires Valid()
      modifies this`vars
      ensures (View(), o) == WriteEdge(cfg, old(View()), edge)
    {
      var w := WriteVariables(edge);
      ThisChanged();
      if w.Throw? { return Throw(w.exn); }
      var res := ReadThrough(cfg.ret, map k | k in edge && k in w.value :: edge[k]);
      return Ok(res);
    }

    method CopyUseVars(up: Params) returns (o: Outcome<()>)
      modifies this`vars
      ensures (vars, o) == CopyUse(old(vars), cfg.use, up)
    {
      var keys := SortedKeys(cfg.use.Keys);
      for i := 0 to |keys|
        invariant CopyUseFrom(vars, keys[i..], cfg.use, up) == CopyUse(old(vars), cfg.use, up)
      {
        var k := keys[i];
        if k !in vars { return Throw(NullRef); }
        if cfg.use[k] !in up { return Throw(OutOfRange); }
        match CopyData(vars[k].val, up[cfg.use[k]]) {
          case Throw(e) => return Throw(e);
          case Ok(c) => vars := vars[k := vars[k].(val := c.0)];
        }
      }
      return Ok(());
    }

    // ----- time and power -----

    method PreCallSelf(now: real)
      requires Valid()
      modifies this`last, this`delta
      ensures View() == PreCall(cfg, old(View()), now)
    {
      delta := now - cfg.birth - last;
      last := now - cfg.birth;
      ThisChanged();
    }

    method Touch(now: real)
      requires Valid()
      modifies repr
      ensures View() == Engine.Touch(cfg, old(View()), now)
      decreases cfg
    {
      TouchSubs(now);
      label Kids:
      for i := 0 to |children|
        invariant unchanged@Kids(this)
        invariant forall k | 0 <= k < |subs| :: unchanged@Kids(subs[k])
        invariant forall k | i <= k < |children| :: unchanged(children[k].repr)
        invariant forall k | 0 <= k < i ::
                    children[k].View() == Engine.Touch(cfg.children[k], old(children[k].View()), now)
      {
        children[i].Touch(now);
      }
      delta := now - cfg.birth - last;
      last := now - cfg.birth;
      plan := last;
      assert View().subs == Engine.Touch(cfg, old(View()), now).subs;
      assert View().children == Engine.Touch(cfg, old(View()), now).children;
    }

    method TouchSubs(now: real)
      requires Valid()
      modifies set s | s in subs
      ensures forall k | 0 <= k < |subs| :: subs[k].View() == PreCallSub(cfg.subs[k], old(subs[k].View()), now)
    {
      for j := 0 to |subs|
        invariant forall k | j <= k < |subs| :: unchanged(subs[k])
        invariant forall k | 0 <= k < j :: subs[k].View() == PreCallSub(cfg.subs[k], old(subs[k].View()), now)
      {
        subs[j].Touch(now);
      }
    }

    /** Write what a guarded call returned. */
    method WriteReturned(r: Outcome<Params>) returns (o: Outcome<()>)
      requires Valid()
      modifies this`vars
      ensures (View(), o) == WriteBack(old(View()), r)
    {
      var w := WriteVariables(if r.Ok? then r.value else map[]);
      ThisChanged();
      o := if w.Ok? then Ok(()) else Throw(w.exn);
    }

    method PowerOffSelf() returns (o: Outcome<Params>)
      requires Valid()
      modifies this`vars, this`power
      ensures (View(), o) == PowerOffFrom(cfg, old(View()), |cfg.children|)
    {
      o := WriteEdgeVars(cfg.off);
      if o.Ok? {
        label Flag:
        power := false;
        ThisChanged@Flag();
      }
    }

    method PowerOffOneChild(i: nat) returns (o: Outcome<()>)
      requires Valid() && i < |children|
      modifies repr
      ensures (View(), o) == PowerOffChild(cfg, old(View()), i)
      decreases cfg, 0
    {
      var r := children[i].PowerOffChildren();
      ChildChanged(i);
      if r.Throw? { return Throw(r.exn); }
      o := WriteReturned(r);
    }

    method PowerOffChildren() returns (o: Outcome<Params>)
      requires Valid()
      modifies repr
      ensures (View(), o) == PowerOff(cfg, old(View()))
      decreases cfg, 1
    {
      for i := 0 to |children|
        invariant PowerOffFrom(cfg, View(), i) == PowerOff(cfg, old(View()))
      {
        var r := PowerOffOneChild(i);
        if r.Throw? { return Throw(r.exn); }
      }
      o := PowerOffSelf();
    }

    // ----- scheduler -----

    method GetDueChildren(time: real) returns (byPriority: seq<Cand>)
      requires Valid()
      ensures byPriority == InsertAll([], ChildCands(cfg, View(), time, |children|))
    {
      byPriority := [];
      ghost var st := View();
      assert forall i | 0 <= i < |children| :: st.children[i] == children[i].View();
      for i := 0 to |children|
        invariant byPriority == InsertAll([], ChildCands(cfg, st, time, i))
      {
        ChildCandsStep(cfg, st, time, i);
        if !children[i].blocked && time > children[i].plan {
          byPriority := Insert(byPriority, Cand(cfg.children[i].priority, Child(i)));
        }
      }
    }

    method AddSubs(dueChildren: seq<Cand>, ghost kids: seq<Cand>) returns (byPriority: seq<Cand>)
      requires Valid() && dueChildren == InsertAll([], kids)
      ensures byPriority == InsertAll([], kids + SubCands(cfg, View(), |subs|))
    {
      hide InsertAll, Insert;
      byPriority := dueChildren;
      ghost var st := View();
      assert forall j | 0 <= j < |subs| :: st.subs[j] == subs[j].View();
      assert kids + SubCands(cfg, st, 0) == kids;
      for j := 0 to |subs|
        invariant byPriority == InsertAll([], kids + SubCands(cfg, st, j))
      {
        SubCandsStep(cfg, st, kids, j);
        if !subs[j].blocked {
          byPriority := Insert(byPriority, Cand(cfg.subs[j].priority, Sub(j)));
        }
      }
    }

    method GetNextCallObjs(time: real) returns (refs: seq<Ref>)
      requires Valid()
      ensures refs == Schedule(cfg, View(), time)
    {
      var byPriority := GetDueChildren(time);
      byPriority := AddSubs(byPriority, ChildCands(cfg, View(), time, |children|));
      refs := Refs(byPriority);
    }

    // ----- one step -----

    method IsPowered(cond: seq<string>) returns (o: Outcome<bool>)
      requires Valid()
      ensures o == Powered(cond, Vals(vars))
    {
      var vals := Vals(vars);
      o := Formula.SolveByStack(Formula.LogicOps(), cond, map k | k in vals :: IsSet(vals[k]), true);
    }

    method GetSubblocksWithErrors() returns (names: set<string>)
      requires Valid()
      modifies this`errBlocks
      ensures names == old(errBlocks) && View() == old(View()).(errBlocks := {})
    {
      names := errBlocks;
      errBlocks := {};
      ThisChanged();
    }

    /** The part of the handlers that keeps a trace of the exception. */
    method Record(name: string, e: Exn)
      requires Valid()
      modifies this`errors, this`errBlocks
      ensures View() == Handle(old(View()), name, Throw(e))
    {
      errors := errors + [ErrorMsg(name, e)];
      errBlocks := errBlocks + {name};
      ThisChanged();
    }

    /** The guarded region for a subprogram. */
    method TrySub(env: Env, j: nat, tick: Tick, up: Params) returns (o: Outcome<Params>, ghost b: Branch)
      requires Valid() && j < |subs|
      modifies subs[j]
      ensures (subs[j].View(), b, o) == GuardSub(env, cfg.subs[j], old(subs[j].View()), Vals(vars), tick, up)
      ensures View() == old(View()).(subs := old(View()).subs[j := subs[j].View()])
    {
      var pow := IsPowered(cfg.subs[j].cond);
      o, b := Ok(map[]), Idle;
      if pow.Throw? {
        o, b := Throw(pow.exn), CondFailed;
      } else if pow.value {
        b := Called;
        o := subs[j].Invoke(env, tick, Vals(vars), up);
      }
      SubChanged(j);
    }

    /** The guarded region for a block whose power condition has been solved to pow. */
    method SwitchPower(env: Env, pow: bool, tick: Tick, vals: Params) returns (o: Outcome<Params>, ghost b: Branch)
      requires Valid()
      modifies repr
      ensures (View(), b, o) == Switch(env, cfg, old(View()), pow, vals, tick)
      decreases cfg, 3
    {
      o, b := Ok(map[]), Idle;
      if pow && power {
        b := Called;
        PreCallSelf(tick.now);
        o := Call(env, tick, vals);
      } else if pow {
        b := PoweredOn;
        o := WriteEdgeVars(cfg.on);
        if o.Ok? { Touch(tick.now); }
      } else if power {
        b := PoweredOff;
        o := PowerOffChildren();
      }
      if o.Ok? {
        label Flag:
        power := pow;
        ThisChanged@Flag();
      }
    }

    /** The guarded region for a child block. */
    method TryChild(env: Env, i: nat, tick: Tick, vals: Params) returns (o: Outcome<Params>, ghost b: Branch)
      requires Valid() && i < |children| && vals == Vals(vars)
      modifies children[i].repr
      ensures (children[i].View(), b, o) == GuardChild(env, cfg.children[i], old(children[i].View()), vals, tick)
      ensures View() == old(View()).(children := old(View()).children[i := children[i].View()])
      decreases cfg, 0
    {
      var pow := IsPowered(cfg.children[i].cond);
      o, b := Ok(map[]), Idle;
      if pow.Throw? {
        o, b := Throw(pow.exn), CondFailed;
      } else {
        o, b := children[i].SwitchPower(env, pow.value, tick, vals);
      }
      ChildChanged(i);
    }

    /** Fetch the error names of a child and keep them under its own name. */
    method DrainChild(i: nat)
      requires Valid() && i < |children|
      modifies this, children[i]
      ensures View() == Drain(cfg, old(View()), i)
    {
      var names := children[i].GetSubblocksWithErrors();
      ChildChanged(i);
      label Adding:
      errBlocks := errBlocks + set n | n in names :: Join(cfg.children[i].name, n);
      ThisChanged@Adding();
    }

    /** One turn of the dispatch loop. */
    method Dispatch(env: Env, ref: Ref, tick: Tick, up: Params) returns (o: Outcome<()>, ghost e: Entry)
      requires Valid() && ValidRef(cfg, ref)
      modifies repr
      ensures (View(), o, e) == RunObj(env, cfg, old(View()), ref, tick, up)
      decreases cfg, 1
    {
      var r: Outcome<Params>;
      ghost var b: Branch;
      match ref {
        case Sub(j) =>
          r, b := TrySub(env, j, tick, up);
          e := Entry(ref, b, r);
          if r.Throw? && !r.exn.Caught() { return Throw(r.exn), e; }
          if r.Throw? { Record(cfg.subs[j].name, r.exn); }
        case Child(i) =>
          r, b := TryChild(env, i, tick, Vals(vars));
          e := Entry(ref, b, r);
          if r.Throw? && !r.exn.Caught() { return Throw(r.exn), e; }
          if r.Throw? { Record(cfg.children[i].name, r.exn); }
          DrainChild(i);
      }
      o := WriteReturned(r);
    }

    /** The dispatch loop. */
    method DispatchAll(env: Env, refs: seq<Ref>, tick: Tick, up: Params) returns (o: Outcome<()>)
      requires Valid() && forall r: Ref <- refs :: ValidRef(cfg, r)
      modifies repr
      ensures var all := RunObjs(env, cfg, old(View()), refs, tick, up); View() == all.0 && o == all.1
      decreases cfg, 2, 0
    {
      for n := 0 to |refs|
        invariant var rest := RunObjs(env, cfg, View(), refs[n..], tick, up);
                  var all := RunObjs(env, cfg, old(View()), refs, tick, up);
                  rest.0 == all.0 && rest.1 == all.1
      {
        ghost var e: Entry;
        o, e := Dispatch(env, refs[n], tick, up);
        if o.Throw? { return; }
      }
      o := Ok(());
    }

    /** block_pre_call and the copy of the USE variables. */
    method BeginCall(up: Params) returns (o: Outcome<()>)
      requires Valid()
      modifies this`plan, this`vars
      ensures (View(), o) == Begin(cfg, old(View()), up)
    {
      plan := plan + cfg.period;
      o := CopyUseVars(up);
      ThisChanged();
    }

    /** call up to the end of the dispatch loop. */
    method RunStep(env: Env, tick: Tick, up: Params) returns (o: Outcome<()>)
      requires Valid()
      modifies repr
      ensures View() == CallLog(env, cfg, old(View()), tick, up).0 && o == CallLog(env, cfg, old(View()), tick, up).1
      decreases cfg, 2, 1
    {
      o := BeginCall(up);
      if o.Throw? { return; }
      var refs := GetNextCallObjs(tick.time);
      ScheduleValid(cfg, View(), tick.time);
      o := DispatchAll(env, refs, tick, up);
    }

    method Call(env: Env, tick: Tick, up: Params) returns (o: Outcome<Params>)
      requires Valid()
      modifies repr
      ensures (View(), o) == Engine.Call(env, cfg, old(View()), tick, up)
      decreases cfg, 2, 2
    {
      var u := RunStep(env, tick, up);
      if u.Throw? { return Throw(u.exn); }
      if !(cfg.ret.Values <= vars.Keys) { return Throw(NullRef); }
      var res := ReadThrough(cfg.ret, Vals(vars));
      return Ok(res);
    }

    /** get_next_errors. */
    method GetNextErrors(max: nat) returns (batch: seq<ErrorMsg>, remaining: nat)
      requires Valid()
      modifies this`errors
      ensures batch == old(errors)[..if max < |old(errors)| then max else |old(errors)|]
      ensures View() == old(View()).(errors := old(errors)[|batch|..])
      ensures remaining == |errors|
    {
      if max >= |errors| {
        batch, errors, remaining := errors, [], 0;
      } else {
        batch, errors := errors[..max], errors[max..];
        remaining := |errors|;
      }
      ThisChanged();
    }
  }
}
