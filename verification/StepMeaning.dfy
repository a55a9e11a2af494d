/** What a step makes of each object it comes to, told from its log alone: the variables of the block at
    that turn, the branch its condition and its flag lead to, the arguments of a user function. */
module StepMeaning {
  import opened Common
  import opened StringOrder
  import opened Values
  import opened Engine
  import opened Scheduling
  import opened StepLog
  import opened Frame
  import opened Power
  import opened Conditions
  import opened Formula
  import Remap

  // ----- power conditions -----

  /** A power condition that spells a tree has the meaning of the tree. */
  lemma PoweredMeans(e: Expr, v: Params)
    requires Condition(e, v)
    ensures Powered(Postfix(e), v) == Ok(Meets(e, v))
  {
    hide Solve, LogicOps, Postfix;
    SolvesMeaning(e, v, true);
    assert (map k | k in v :: IsSet(v[k])) == Readings(v);
  }

  /** A condition of one variable holds exactly when the variable is there and neither false, zero, empty
      nor a negative zero. */
  lemma PoweredByVariable(n: string, v: Params)
    requires n != "&" && n != "|" && n != "!"
    ensures Powered([n], v) == Ok(true) <==> n in v && !Unset(v[n])
  {
    hide Solve, LogicOps;
    OneVariable(n, v, true);
    assert (map k | k in v :: IsSet(v[k])) == Readings(v);
  }

  /** An object without a condition is always on. */
  lemma PoweredByNothing(v: Params)
    ensures Powered([], v) == Ok(true)
  {
  }

  // ----- the variables of the block, folded from the log -----

  /** The unlocked variables that m names take its values. */
  function Overwritten(vars: Vars, m: Params): Vars {
    map k | k in vars :: if k in m && !vars[k].locked then Var(m[k], false) else vars[k]
  }

  /** The variables after the turns of the log, each of which wrote what it returned. */
  function Folded(vars: Vars, log: seq<Entry>): Vars {
    if log == [] then vars
    else
      var before, e := Folded(vars, log[..|log| - 1]), log[|log| - 1];
      if e.out.Ok? then Overwritten(before, e.out.value) else before
  }

  /** The variables after the USE copy. */
  function AfterUse(cfg: Cfg, vars: Vars, up: Params): Vars {
    map k | k in vars :: if k in cfg.use && cfg.use[k] in up then vars[k].(val := up[cfg.use[k]]) else vars[k]
  }

  lemma {:induction false} FoldedHead(vars: Vars, e: Entry, es: seq<Entry>)
    ensures Folded(vars, [e] + es) == Folded(Folded(vars, [e]), es)
    decreases |es|
  {
    var log := [e] + es;
    if es == [] {
      assert log == [e];
    } else {
      FoldedHead(vars, e, es[..|es| - 1]);
      assert log[..|log| - 1] == [e] + es[..|es| - 1] && log[|log| - 1] == es[|es| - 1];
    }
  }

  lemma WriteIsOverwriting(vars: Vars, m: Params)
    requires Write(vars, m).1.Ok?
    ensures Write(vars, m).0 == Overwritten(vars, m)
  {
    WriteImage(vars, SortedKeys(m.Keys), m, {});
  }

  lemma FoldedOne(vars: Vars, e: Entry)
    ensures Folded(vars, [e]) == if e.out.Ok? then Overwritten(vars, e.out.value) else vars
  {
    assert [e][..0] == [];
    assert Folded(vars, []) == vars;
  }

  /** A turn that does not end the step has written what it returned. */
  lemma TurnFolds(env: Env, cfg: Cfg, st: St, ref: Ref, tick: Tick, up: Params)
    requires Shape(cfg, st) && ValidRef(cfg, ref) && RunObj(env, cfg, st, ref, tick, up).1.Ok?
    ensures var (r, _, e) := RunObj(env, cfg, st, ref, tick, up); r.vars == Folded(st.vars, [e])
  {
    hide Write, GuardSub, GuardChild, Overwritten, Folded;
    var (r, _, e) := RunObj(env, cfg, st, ref, tick, up);
    var m: Params := if e.out.Ok? then e.out.value else map[];
    FoldedOne(st.vars, e);
    assert Write(st.vars, m).1.Ok? && r.vars == Write(st.vars, m).0;
    WriteIsOverwriting(st.vars, m);
    NothingOverwritten(st.vars);
  }

  lemma NothingOverwritten(vars: Vars)
    ensures Overwritten(vars, map[]) == vars
  {
  }

  // ----- the state of a turn -----

  /** The object is in s as it was in st. */
  ghost predicate SameObject(cfg: Cfg, ref: Ref, st: St, s: St)
    requires Shape(cfg, st) && Shape(cfg, s) && ValidRef(cfg, ref)
  {
    match ref case Child(i) => s.children[i] == st.children[i] case Sub(j) => s.subs[j] == st.subs[j]
  }

  /** The state in which entry n of the log came up. */
  lemma {:induction false} TurnState(env: Env, cfg: Cfg, st: St, refs: seq<Ref>, tick: Tick, up: Params, n: nat)
    returns (s: St)
    requires Shape(cfg, st) && (forall r <- refs :: ValidRef(cfg, r)) && NoDuplicates(refs)
    requires n < |RunObjs(env, cfg, st, refs, tick, up).2|
    ensures var (r, o, log) := RunObjs(env, cfg, st, refs, tick, up);
            && n < |refs| && ValidRef(cfg, refs[n]) && log[n].ref == refs[n]
            && Shape(cfg, s) && s.vars == Folded(st.vars, log[..n]) && SameObject(cfg, refs[n], st, s)
            && log[n] == RunObj(env, cfg, s, refs[n], tick, up).2
            && SameObject(cfg, refs[n], RunObj(env, cfg, s, refs[n], tick, up).0, r)
    decreases |refs|
  {
    hide RunObj, Folded;
    LogFollowsRefs(env, cfg, st, refs, tick, up);
    assert ValidRef(cfg, refs[0]);
    var (st1, o, e) := RunObj(env, cfg, st, refs[0], tick, up);
    RunObjLocal(env, cfg, st, refs[0], tick, up);
    if n == 0 {
      s := st;
      assert Folded(st.vars, []) == st.vars by { FoldedNothing(st.vars); }
      assert refs[0] !in refs[1..];
      if o.Ok? { LogFollowsRefs(env, cfg, st1, refs[1..], tick, up); }
    } else {
      s := TurnState(env, cfg, st1, refs[1..], tick, up, n - 1);
      var es := RunObjs(env, cfg, st1, refs[1..], tick, up).2;
      TurnFolds(env, cfg, st, refs[0], tick, up);
      FoldedHead(st.vars, e, es[..n - 1]);
      assert ([e] + es)[..n] == [e] + es[..n - 1];
      assert refs[n] == refs[1..][n - 1] && refs[n] != refs[0];
    }
  }

  lemma FoldedNothing(vars: Vars)
    ensures Folded(vars, []) == vars
  {
  }

  lemma {:induction false} LoopFolds(env: Env, cfg: Cfg, st: St, refs: seq<Ref>, tick: Tick, up: Params)
    requires Shape(cfg, st) && (forall r <- refs :: ValidRef(cfg, r)) && RunObjs(env, cfg, st, refs, tick, up).1.Ok?
    ensures var (r, _, log) := RunObjs(env, cfg, st, refs, tick, up); r.vars == Folded(st.vars, log)
    decreases |refs|
  {
    hide RunObj, Folded;
    if refs == [] {
      FoldedNothing(st.vars);
    } else {
      var (st1, o, e) := RunObj(env, cfg, st, refs[0], tick, up);
      LoopFolds(env, cfg, st1, refs[1..], tick, up);
      TurnFolds(env, cfg, st, refs[0], tick, up);
      FoldedHead(st.vars, e, RunObjs(env, cfg, st1, refs[1..], tick, up).2);
    }
  }

  lemma BegunVars(cfg: Cfg, st: St, up: Params)
    requires Shape(cfg, st) && Begin(cfg, st, up).1.Ok?
    ensures Begin(cfg, st, up).0.vars == AfterUse(cfg, st.vars, up)
  {
    hide Begin;
    UseIsCopied(cfg, st, up);
    var vs := Begin(cfg, st, up).0.vars;
    forall k | k in vs ensures vs[k] == AfterUse(cfg, st.vars, up)[k] {}
  }

  /** The variables at the end of a step that is not cut short: what the USE copy and the log say. */
  lemma StepVariables(env: Env, cfg: Cfg, st: St, tick: Tick, up: Params)
    requires Shape(cfg, st) && CallLog(env, cfg, st, tick, up).1.Ok?
    ensures var (r, _, log) := CallLog(env, cfg, st, tick, up); r.vars == Folded(AfterUse(cfg, st.vars, up), log)
  {
    hide RunObjs, Schedule, Folded, AfterUse, CopyUseFrom;
    var st1 := Begin(cfg, st, up).0;
    BegunVars(cfg, st, up);
    ScheduleValid(cfg, st1, tick.time);
    LoopFolds(env, cfg, st1, Schedule(cfg, st1, tick.time), tick, up);
  }

  // ----- subprograms -----

  /** The turn of subprogram sc, whose record goes from s to s1, over the block's variables v. */
  predicate SubTurn(env: Env, sc: SubCfg, s: SubSt, s1: SubSt, v: Params, tick: Tick, up: Params, e: Entry) {
    var clock := tick.now - sc.birth;
    match Powered(sc.cond, v)
    case Throw(x) => e.branch == CondFailed && e.out == Throw(x) && s1 == s
    case Ok(on) =>
      if !on then e.branch == Idle && e.out == Ok(map[]) && s1 == s
      else
        && e.branch == Called && s1 == SubSt(clock, clock - s.last, s.blocked)
        && if sc.func !in env then e.out == Ok(map[])
           else
             match env[sc.func](tick.time, clock - s.last, Remap.View(v, sc.remap), up)
             case Throw(x) => e.out == Throw(x)
             case Ok(res) => e.out == Ok(Remap.Rename(res, sc.remap))
  }

  lemma OneSubTurn(env: Env, cfg: Cfg, st: St, j: nat, tick: Tick, up: Params)
    requires Shape(cfg, st) && j < |cfg.subs|
    ensures var (r, _, e) := RunObj(env, cfg, st, Sub(j), tick, up);
            SubTurn(env, cfg.subs[j], st.subs[j], r.subs[j], Vals(st.vars), tick, up, e)
  {
    hide Powered, Remap.Rename, Remap.View;
    var (s, b, o) := GuardSub(env, cfg.subs[j], st.subs[j], Vals(st.vars), tick, up);
    FinishKeeps(st.(subs := st.subs[j := s]), cfg.subs[j].name, o);
  }

  /** In every step: a subprogram that comes up over variables that meet its condition is called with the
      model time, the wall-clock time since its last call, the variables of the block at its turn read
      through its renaming, and the variables of the upper block; its result is renamed in place. */
  lemma SubprogramTurns(env: Env, cfg: Cfg, st: St, tick: Tick, up: Params, n: nat, j: nat)
    requires Shape(cfg, st)
    requires var log := CallLog(env, cfg, st, tick, up).2; n < |log| && log[n].ref == Sub(j)
    ensures j < |cfg.subs|
    ensures var (r, _, log) := CallLog(env, cfg, st, tick, up);
            var v := Vals(Folded(AfterUse(cfg, st.vars, up), log[..n]));
            SubTurn(env, cfg.subs[j], st.subs[j], r.subs[j], v, tick, up, log[n])
  {
    hide RunObjs, RunObj, Schedule, Folded, AfterUse, CopyUseFrom, SubTurn;
    var st1 := Begin(cfg, st, up).0;
    BegunVars(cfg, st, up);
    ScheduleIsStableSort(cfg, st1, tick.time);
    var s := TurnState(env, cfg, st1, Schedule(cfg, st1, tick.time), tick, up, n);
    OneSubTurn(env, cfg, s, j, tick, up);
  }

  // ----- child blocks -----

  /** What the guarded region makes of child cc in state c over the block's variables v: what its condition
      says now and its flag said before decide. */
  function Guarded(env: Env, cc: Cfg, c: St, v: Params, tick: Tick): (St, Branch, Outcome<Params>)
    requires Shape(cc, c)
  {
    match Powered(cc.cond, v)
    case Throw(x) => (c, CondFailed, Throw(x))
    case Ok(on) =>
      if on && c.power then
        var clock := tick.now - cc.birth;
        var (d, o) := Call(env, cc, c.(last := clock, delta := clock - c.last), tick, v);
        (d, Called, o)
      else if on then
        var (d, o) := WriteEdge(cc, c, cc.on);
        (if o.Ok? then Touch(cc, d, tick.now).(power := true) else d, PoweredOn, o)
      else if c.power then
        var (d, o) := PowerOff(cc, c);
        (if o.Ok? then d.(power := false) else d, PoweredOff, o)
      else (c, Idle, Ok(map[]))
  }

  /** The turn of the child, which ends in c1: its error names have been fetched unless an exception went
      past the handlers. */
  ghost predicate ChildTurn(env: Env, cc: Cfg, c: St, c1: St, v: Params, tick: Tick, e: Entry)
    requires Shape(cc, c)
  {
    var (d, b, o) := Guarded(env, cc, c, v, tick);
    && e.branch == b && e.out == o
    && c1 == if o.Throw? && (o.exn.Foreign? || o.exn.NullRef?) then d else d.(errBlocks := {})
  }

  lemma GuardIsGuarded(env: Env, cc: Cfg, c: St, v: Params, tick: Tick)
    requires Shape(cc, c)
    ensures GuardChild(env, cc, c, v, tick) == Guarded(env, cc, c, v, tick)
  {
    hide Call, WriteEdge, PowerOff, Touch, Powered;
    CallKeepsFlag(env, cc, PreCall(cc, c, tick.now), tick, v);
  }

  lemma OneChildTurn(env: Env, cfg: Cfg, st: St, i: nat, tick: Tick, up: Params)
    requires Shape(cfg, st) && i < |cfg.children|
    ensures var (r, _, e) := RunObj(env, cfg, st, Child(i), tick, up);
            ChildTurn(env, cfg.children[i], st.children[i], r.children[i], Vals(st.vars), tick, e)
  {
    hide GuardChild, Guarded;
    var cc, c, v := cfg.children[i], st.children[i], Vals(st.vars);
    GuardIsGuarded(env, cc, c, v, tick);
    var (c1, b, o) := GuardChild(env, cc, c, v, tick);
    FinishChildKeeps(cfg, st.(children := st.children[i := c1]), i, o);
  }

  /** In every step: branch, outcome and final state of a child follow from its condition over the
      variables of the block at its turn and from the flag it came with; a called child sees those
      variables, the model time and the clock. */
  lemma ChildTurns(env: Env, cfg: Cfg, st: St, tick: Tick, up: Params, n: nat, i: nat)
    requires Shape(cfg, st)
    requires var log := CallLog(env, cfg, st, tick, up).2; n < |log| && log[n].ref == Child(i)
    ensures i < |cfg.children|
    ensures var (r, _, log) := CallLog(env, cfg, st, tick, up);
            var v := Vals(Folded(AfterUse(cfg, st.vars, up), log[..n]));
            ChildTurn(env, cfg.children[i], st.children[i], r.children[i], v, tick, log[n])
  {
    hide RunObjs, RunObj, Schedule, Folded, AfterUse, CopyUseFrom, ChildTurn;
    var st1 := Begin(cfg, st, up).0;
    BegunVars(cfg, st, up);
    ScheduleIsStableSort(cfg, st1, tick.time);
    var s := TurnState(env, cfg, st1, Schedule(cfg, st1, tick.time), tick, up, n);
    OneChildTurn(env, cfg, s, i, tick, up);
  }

  /** The branch of a child whose condition is a tree, told by the meaning of the tree. */
  lemma BranchByCondition(env: Env, cfg: Cfg, st: St, tick: Tick, up: Params, n: nat, i: nat, e: Expr)
    requires Shape(cfg, st)
    requires var log := CallLog(env, cfg, st, tick, up).2; n < |log| && log[n].ref == Child(i)
    requires i < |cfg.children| && cfg.children[i].cond == Postfix(e)
    requires Condition(e, Vals(Folded(AfterUse(cfg, st.vars, up), CallLog(env, cfg, st, tick, up).2[..n])))
    ensures var log := CallLog(env, cfg, st, tick, up).2;
            var on := Meets(e, Vals(Folded(AfterUse(cfg, st.vars, up), log[..n])));
            log[n].branch == if on then (if st.children[i].power then Called else PoweredOn)
                             else if st.children[i].power then PoweredOff else Idle
  {
    hide CallLog, Folded, AfterUse, Powered, Postfix, Call, WriteEdge, PowerOff, Touch;
    ChildTurns(env, cfg, st, tick, up, n, i);
    PoweredMeans(e, Vals(Folded(AfterUse(cfg, st.vars, up), CallLog(env, cfg, st, tick, up).2[..n])));
  }

  /** And whether a subprogram is called. */
  lemma CalledByCondition(env: Env, cfg: Cfg, st: St, tick: Tick, up: Params, n: nat, j: nat, e: Expr)
    requires Shape(cfg, st)
    requires var log := CallLog(env, cfg, st, tick, up).2; n < |log| && log[n].ref == Sub(j)
    requires j < |cfg.subs| && cfg.subs[j].cond == Postfix(e)
    requires Condition(e, Vals(Folded(AfterUse(cfg, st.vars, up), CallLog(env, cfg, st, tick, up).2[..n])))
    ensures var log := CallLog(env, cfg, st, tick, up).2;
            log[n].branch == if Meets(e, Vals(Folded(AfterUse(cfg, st.vars, up), log[..n]))) then Called else Idle
  {
    hide CallLog, Folded, AfterUse, Powered, Postfix;
    SubprogramTurns(env, cfg, st, tick, up, n, j);
    PoweredMeans(e, Vals(Folded(AfterUse(cfg, st.vars, up), CallLog(env, cfg, st, tick, up).2[..n])));
  }

  // ----- writes and copies that stop half way -----

  predicate Misfit(vars: Vars, val: Params, k: string) {
    k in val && k in vars && !vars[k].locked && TypeOf(val[k]) != TypeOf(vars[k].val)
  }

  /** The unlocked variables among keys take the values of val. */
  function FirstWritten(vars: Vars, keys: seq<string>, val: Params): Vars {
    map k | k in vars :: if k in keys && k in val && !vars[k].locked then Var(val[k], false) else vars[k]
  }

  lemma OneMoreWritten(vars: Vars, k: string, rest: seq<string>, val: Params)
    requires k in val
    ensures k in vars && !vars[k].locked ==>
              FirstWritten(vars[k := Var(val[k], false)], rest, val) == FirstWritten(vars, [k] + rest, val)
    ensures k !in vars || vars[k].locked ==> FirstWritten(vars, rest, val) == FirstWritten(vars, [k] + rest, val)
  {
  }

  lemma SameMisfits(vars: Vars, k: string, rest: seq<string>, val: Params)
    requires k in val && k in vars && k !in rest
    ensures forall j <- rest :: Misfit(vars[k := Var(val[k], false)], val, j) <==> Misfit(vars, val, j)
  {
  }

  lemma {:induction false} WriteFromStops(vars: Vars, keys: seq<string>, val: Params, done: set<string>)
    returns (n: nat)
    requires (forall k <- keys :: k in val) && NoDuplicates(keys) && WriteFrom(vars, keys, val, done).1.Throw?
    ensures n < |keys| && Misfit(vars, val, keys[n]) && forall m: nat | m < n :: !Misfit(vars, val, keys[m])
    ensures WriteFrom(vars, keys, val, done) == (FirstWritten(vars, keys[..n], val), Throw(BadCast))
    decreases keys
  {
    hide FirstWritten;
    var k, rest := keys[0], keys[1..];
    if Misfit(vars, val, k) {
      n := 0;
      NoneWritten(vars, val);
      assert keys[..0] == [];
    } else {
      assert forall m | 0 < m < |keys| :: keys[m] == rest[m - 1];
      assert k !in rest;
      var skip := k !in vars || vars[k].locked;
      var vars1 := if skip then vars else vars[k := Var(val[k], false)];
      var m := WriteFromStops(vars1, rest, val, if skip then done else done + {k});
      OneMoreWritten(vars, k, rest[..m], val);
      if !skip { SameMisfits(vars, k, rest, val); }
      n := m + 1;
      assert keys[..n] == [k] + rest[..m];
      forall i: nat | i < n ensures !Misfit(vars, val, keys[i]) {
        if i > 0 { assert keys[i] == rest[i - 1] && rest[i - 1] in rest; }
      }
      assert keys[n] == rest[m] && rest[m] in rest;
    }
  }

  lemma NoneWritten(vars: Vars, val: Params)
    ensures FirstWritten(vars, [], val) == vars
  {
  }

  /** A write that meets a value of the wrong type has written every unlocked name before it in key order,
      and nothing from there on. */
  lemma WriteStops(vars: Vars, val: Params) returns (n: nat)
    requires Write(vars, val).1.Throw?
    ensures var keys := SortedKeys(val.Keys);
            && n < |keys| && Misfit(vars, val, keys[n]) && (forall m: nat | m < n :: !Misfit(vars, val, keys[m]))
            && Write(vars, val) == (FirstWritten(vars, keys[..n], val), Throw(BadCast))
  {
    SortedKeysAscend(val.Keys);
    n := WriteFromStops(vars, SortedKeys(val.Keys), val, {});
  }
}
