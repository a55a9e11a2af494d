/** The block tree and one step of it: what Block::call, power_off_children, touch and the
    scheduler compute, as functions on values.  A tree is a pair of a Cfg, which nothing changes
    after loading, and a St of the same shape, which holds every field a run changes. */
module Engine {
  import opened Common
  import opened StringOrder
  import opened Values
  import Formula
  import Remap

  // ----- data -----

  datatype Var = Var(val: Value, locked: bool)

  type Vars = map<string, Var>

  datatype SubCfg = SubCfg(
    name: string,                // the key in the parent's table
    func: string,                // the function of the storage it calls
    remap: map<string, string>,  // name inside the function -> variable of the block
    priority: real,
    cond: seq<string>,           // power condition
    birth: real)                 // wall clock at construction

  datatype Cfg = Cfg(
    name: string,
    period: real,
    priority: real,
    cond: seq<string>,
    birth: real,
    use: map<string, string>,    // _use_vars: own variable -> parent variable
    ret: map<string, string>,    // _res_vars: parent variable -> own variable
    on: Params,                  // _poweron_vars
    off: Params,                 // _poweroff_vars
    children: seq<Cfg>,          // in name order
    subs: seq<SubCfg>)           // in name order

  datatype ErrorMsg = ErrorMsg(who: string, exn: Exn)

  datatype SubSt = SubSt(last: real, delta: real, blocked: bool)

  datatype St = St(
    vars: Vars,
    plan: real,                  // _lastcall_plan
    last: real,
    delta: real,
    blocked: bool,
    power: bool,                 // _power_prev_step
    errBlocks: set<string>,
    errors: seq<ErrorMsg>,
    children: seq<St>,
    subs: seq<SubSt>)

  /** A user function: (time, delta, block variables, variables of the upper block). */
  type Fn = (real, real, Params, Params) -> Outcome<Params>

  /** FunctionStorage. */
  type Env = map<string, Fn>

  /** The inputs of a step: the model time and the reading of the wall clock. */
  datatype Tick = Tick(time: real, now: real)

  ghost predicate Shape(cfg: Cfg, st: St) {
    && |st.children| == |cfg.children|
    && |st.subs| == |cfg.subs|
    && forall i | 0 <= i < |cfg.children| :: Shape(cfg.children[i], st.children[i])
  }

  function Vals(vars: Vars): Params {
    map k | k in vars :: vars[k].val
  }

  // ----- variables -----

  /** write_variables from the given keys of val on: the variables, then the names written so far,
      or the exception that stops the loop. */
  function WriteFrom(vars: Vars, keys: seq<string>, val: Params, done: set<string>): (Vars, Outcome<set<string>>)
    requires forall k <- keys :: k in val
    decreases keys
  {
    if keys == [] then (vars, Ok(done))
    else
      var k, rest := keys[0], keys[1..];
      if k !in vars || vars[k].locked then WriteFrom(vars, rest, val, done)
      else
        match CopyData(vars[k].val, val[k])
        case Throw(e) => (vars, Throw(e))
        case Ok(c) => WriteFrom(vars[k := vars[k].(val := c.0)], rest, val, done + {k})
  }

  function Write(vars: Vars, val: Params): (Vars, Outcome<set<string>>) {
    WriteFrom(vars, SortedKeys(val.Keys), val, {})
  }

  /** The write of what a guarded call returned; after an exception there is nothing to write. */
  function WriteBack(st: St, o: Outcome<Params>): (St, Outcome<()>) {
    var (vs, w) := Write(st.vars, if o.Ok? then o.value else map[]);
    (st.(vars := vs), if w.Ok? then Ok(()) else Throw(w.exn))
  }

  /** The copy of the USE variables; it does not look at locks. */
  function CopyUseFrom(vars: Vars, keys: seq<string>, use: map<string, string>, up: Params): (Vars, Outcome<()>)
    requires forall k <- keys :: k in use
    decreases keys
  {
    if keys == [] then (vars, Ok(()))
    else
      var k, rest := keys[0], keys[1..];
      if k !in vars then (vars, Throw(NullRef))
      else if use[k] !in up then (vars, Throw(OutOfRange))
      else
        match CopyData(vars[k].val, up[use[k]])
        case Throw(e) => (vars, Throw(e))
        case Ok(c) => CopyUseFrom(vars[k := vars[k].(val := c.0)], rest, use, up)
  }

  function CopyUse(vars: Vars, use: map<string, string>, up: Params): (Vars, Outcome<()>) {
    CopyUseFrom(vars, SortedKeys(use.Keys), use, up)
  }

  /** The entries of a wire table whose own end has a value in src, under their far ends. */
  function Through(ret: map<string, string>, src: Params): Params {
    map d | d in ret && ret[d] in src :: src[ret[d]]
  }

  /** The returned variables at the end of call. */
  function Collect(vars: Vars, ret: map<string, string>): Outcome<Params> {
    if ret.Values <= vars.Keys then Ok(Through(ret, Vals(vars))) else Throw(NullRef)
  }

  /** The returned variables of write_poweron_vars and write_poweroff_vars: those just written. */
  function EdgeReturn(ret: map<string, string>, edge: Params, written: set<string>): Params {
    Through(ret, map k | k in edge && k in written :: edge[k])
  }

  function WriteEdge(cfg: Cfg, st: St, edge: Params): (St, Outcome<Params>) {
    var (vs, o) := Write(st.vars, edge);
    (st.(vars := vs), match o case Ok(w) => Ok(EdgeReturn(cfg.ret, edge, w)) case Throw(e) => Throw(e))
  }

  // ----- power -----

  /** is_powered. */
  function Powered(cond: seq<string>, vals: Params): Outcome<bool> {
    Formula.Solve(Formula.LogicOps(), cond, map k | k in vals :: IsSet(vals[k]), true)
  }

  /** One turn of the loop of power_off_children: child i goes off and its returned variables are
      written. */
  function PowerOffChild(cfg: Cfg, st: St, i: nat): (r: (St, Outcome<()>))
    requires Shape(cfg, st) && i < |cfg.children|
    ensures Shape(cfg, r.0)
    decreases cfg, 0
  {
    var (c, o) := PowerOff(cfg.children[i], st.children[i]);
    var st1 := st.(children := st.children[i := c]);
    if o.Throw? then (st1, Throw(o.exn)) else WriteBack(st1, o)
  }

  /** power_off_children from child number i on, then the block itself. */
  function PowerOffFrom(cfg: Cfg, st: St, i: nat): (r: (St, Outcome<Params>))
    requires Shape(cfg, st) && i <= |cfg.children|
    ensures Shape(cfg, r.0)
    decreases cfg, 1, |cfg.children| - i
  {
    if i == |cfg.children| then
      var (st1, o) := WriteEdge(cfg, st, cfg.off);
      (if o.Ok? then st1.(power := false) else st1, o)
    else
      var (st1, o) := PowerOffChild(cfg, st, i);
      if o.Throw? then (st1, Throw(o.exn)) else PowerOffFrom(cfg, st1, i + 1)
  }

  function PowerOff(cfg: Cfg, st: St): (r: (St, Outcome<Params>))
    requires Shape(cfg, st)
    ensures Shape(cfg, r.0)
    decreases cfg, 2
  {
    PowerOffFrom(cfg, st, 0)
  }

  function PreCallSub(sc: SubCfg, s: SubSt, now: real): SubSt {
    s.(delta := now - sc.birth - s.last, last := now - sc.birth)
  }

  function PreCall(cfg: Cfg, st: St, now: real): St {
    st.(delta := now - cfg.birth - st.last, last := now - cfg.birth)
  }

  /** touch. */
  function Touch(cfg: Cfg, st: St, now: real): (r: St)
    requires Shape(cfg, st)
    ensures Shape(cfg, r)
    decreases cfg
  {
    var subs := seq(|st.subs|, j requires 0 <= j < |st.subs| => PreCallSub(cfg.subs[j], st.subs[j], now));
    var kids := seq(|st.children|, i requires 0 <= i < |st.children| => Touch(cfg.children[i], st.children[i], now));
    var st1 := PreCall(cfg, st.(subs := subs, children := kids), now);
    st1.(plan := st1.last)
  }

  // ----- scheduler -----

  datatype Ref = Child(i: nat) | Sub(j: nat)

  datatype Cand = Cand(priority: real, ref: Ref)

  predicate Due(st: St, time: real) {
    !st.blocked && time > st.plan
  }

  function ChildCands(cfg: Cfg, st: St, time: real, n: nat): seq<Cand>
    requires Shape(cfg, st) && n <= |cfg.children|
  {
    if n == 0 then []
    else
      ChildCands(cfg, st, time, n - 1) +
      if Due(st.children[n - 1], time) then [Cand(cfg.children[n - 1].priority, Child(n - 1))] else []
  }

  function SubCands(cfg: Cfg, st: St, n: nat): seq<Cand>
    requires Shape(cfg, st) && n <= |cfg.subs|
  {
    if n == 0 then []
    else
      SubCands(cfg, st, n - 1) +
      if !st.subs[n - 1].blocked then [Cand(cfg.subs[n - 1].priority, Sub(n - 1))] else []
  }

  /** multimap::emplace: after the entries with a priority not above the new one. */
  function Insert(sorted: seq<Cand>, c: Cand): seq<Cand> {
    if sorted == [] || sorted[|sorted| - 1].priority <= c.priority then sorted + [c]
    else Insert(sorted[..|sorted| - 1], c) + [sorted[|sorted| - 1]]
  }

  function InsertAll(sorted: seq<Cand>, cands: seq<Cand>): seq<Cand> {
    if cands == [] then sorted else Insert(InsertAll(sorted, cands[..|cands| - 1]), cands[|cands| - 1])
  }

  function Refs(cands: seq<Cand>): seq<Ref> {
    seq(|cands|, i requires 0 <= i < |cands| => cands[i].ref)
  }

  function Candidates(cfg: Cfg, st: St, time: real): seq<Cand>
    requires Shape(cfg, st)
  {
    ChildCands(cfg, st, time, |cfg.children|) + SubCands(cfg, st, |cfg.subs|)
  }

  ghost predicate ValidRef(cfg: Cfg, r: Ref) {
    match r case Child(i) => i < |cfg.children| case Sub(j) => j < |cfg.subs|
  }

  /** get_nextcall_objs. */
  function Schedule(cfg: Cfg, st: St, time: real): seq<Ref>
    requires Shape(cfg, st)
  {
    Refs(InsertAll([], Candidates(cfg, st, time)))
  }

  // ----- one step -----

  /** Subprogram::call. */
  function CallFn(env: Env, sc: SubCfg, time: real, delta: real, v: Params, up: Params): Outcome<Params> {
    if sc.func !in env then Ok(map[])
    else
      match env[sc.func](time, delta, Remap.View(v, sc.remap), up)
      case Throw(e) => Throw(e)
      case Ok(res) => Ok(Remap.Rename(res, sc.remap))
  }

  /** Which branch of the dispatch an object took. */
  datatype Branch = Called | PoweredOn | PoweredOff | Idle | CondFailed

  /** The dispatch of one object, and what the guarded region of the loop ended with. */
  datatype Entry = Entry(ref: Ref, branch: Branch, out: Outcome<Params>)

  function GuardSub(env: Env, sc: SubCfg, s: SubSt, vals: Params, tick: Tick, up: Params): (SubSt, Branch,
          Outcome<Params>) {
    match Powered(sc.cond, vals)
    case Throw(e) => (s, CondFailed, Throw(e))
    case Ok(pow) =>
      if pow then
        var s1 := PreCallSub(sc, s, tick.now);
        (s1, Called, CallFn(env, sc, tick.time, s1.delta, vals, up))
      else (s, Idle, Ok(map[]))
  }

  function SetPower(st: St, o: Outcome<Params>, pow: bool): St {
    if o.Ok? then st.(power := pow) else st
  }

  /** The four cases of the power condition, now and at the previous step. */
  function Switch(env: Env, cc: Cfg, c: St, pow: bool, vals: Params, tick: Tick): (r: (St, Branch, Outcome<Params>))
    requires Shape(cc, c)
    ensures Shape(cc, r.0)
    decreases cc, 4, 0
  {
    if pow && c.power then
      var (c1, o) := Call(env, cc, PreCall(cc, c, tick.now), tick, vals);
      (SetPower(c1, o, pow), Called, o)
    else if pow then
      var (c1, o) := WriteEdge(cc, c, cc.on);
      (SetPower(if o.Ok? then Touch(cc, c1, tick.now) else c1, o, pow), PoweredOn, o)
    else if c.power then
      var (c1, o) := PowerOff(cc, c);
      (SetPower(c1, o, pow), PoweredOff, o)
    else (SetPower(c, Ok(map[]), pow), Idle, Ok(map[]))
  }

  function GuardChild(env: Env, cc: Cfg, c: St, vals: Params, tick: Tick): (r: (St, Branch, Outcome<Params>))
    requires Shape(cc, c)
    ensures Shape(cc, r.0)
    decreases cc, 4, 1
  {
    match Powered(cc.cond, vals)
    case Throw(e) => (c, CondFailed, Throw(e))
    case Ok(pow) => Switch(env, cc, c, pow, vals, tick)
  }

  /** The handlers: a caught exception leaves a message and the object's name. */
  function Handle(st: St, name: string, o: Outcome<Params>): St {
    if o.Throw? then st.(errors := st.errors + [ErrorMsg(name, o.exn)], errBlocks := st.errBlocks + {name}) else st
  }

  function Join(parent: string, child: string): string {
    parent + "." + child
  }

  /** get_subblocks_with_errors of child i, moved up under the child's name. */
  function Drain(cfg: Cfg, st: St, i: nat): St
    requires Shape(cfg, st) && i < |cfg.children|
  {
    var c := st.children[i];
    st.(children := st.children[i := c.(errBlocks := {})],
        errBlocks := st.errBlocks + set e | e in c.errBlocks :: Join(cfg.children[i].name, e))
  }

  /** One turn of the dispatch loop of Block::call. */
  function RunObj(env: Env, cfg: Cfg, st: St, ref: Ref, tick: Tick, up: Params): (r: (St, Outcome<()>, Entry))
    requires Shape(cfg, st) && ValidRef(cfg, ref)
    ensures Shape(cfg, r.0)
    decreases cfg, 1, 0
  {
    match ref
    case Sub(j) =>
      var (s, b, o) := GuardSub(env, cfg.subs[j], st.subs[j], Vals(st.vars), tick, up);
      var st1 := st.(subs := st.subs[j := s]);
      if o.Throw? && !o.exn.Caught() then (st1, Throw(o.exn), Entry(ref, b, o))
      else
        var (st2, w) := WriteBack(Handle(st1, cfg.subs[j].name, o), o);
        (st2, w, Entry(ref, b, o))
    case Child(i) =>
      var (c, b, o) := GuardChild(env, cfg.children[i], st.children[i], Vals(st.vars), tick);
      var st1 := st.(children := st.children[i := c]);
      if o.Throw? && !o.exn.Caught() then (st1, Throw(o.exn), Entry(ref, b, o))
      else
        var (st2, w) := WriteBack(Drain(cfg, Handle(st1, cfg.children[i].name, o), i), o);
        (st2, w, Entry(ref, b, o))
  }

  function RunObjs(env: Env, cfg: Cfg, st: St, refs: seq<Ref>, tick: Tick,
                   up: Params): (r: (St, Outcome<()>, seq<Entry>))
    requires Shape(cfg, st) && forall r <- refs :: ValidRef(cfg, r)
    ensures Shape(cfg, r.0)
    decreases cfg, 2, |refs|
  {
    if refs == [] then (st, Ok(()), [])
    else
      var (st1, o, e) := RunObj(env, cfg, st, refs[0], tick, up);
      if o.Throw? then (st1, o, [e])
      else
        var (st2, o2, es) := RunObjs(env, cfg, st1, refs[1..], tick, up);
        (st2, o2, [e] + es)
  }

  /** What call does before the dispatch loop. */
  function Begin(cfg: Cfg, st: St, up: Params): (r: (St, Outcome<()>))
    requires Shape(cfg, st)
    ensures Shape(cfg, r.0)
  {
    var (vs, o) := CopyUse(st.vars, cfg.use, up);
    (st.(plan := st.plan + cfg.period, vars := vs), o)
  }

  /** Block::call with the dispatch log; up holds the variables of the parent block. */
  function CallLog(env: Env, cfg: Cfg, st: St, tick: Tick, up: Params): (r: (St, Outcome<()>, seq<Entry>))
    requires Shape(cfg, st)
    ensures Shape(cfg, r.0)
    decreases cfg, 3, 0
  {
    var (st1, o) := Begin(cfg, st, up);
    if o.Throw? then (st1, o, [])
    else
      ScheduleValid(cfg, st1, tick.time);
      RunObjs(env, cfg, st1, Schedule(cfg, st1, tick.time), tick, up)
  }

  function Call(env: Env, cfg: Cfg, st: St, tick: Tick, up: Params): (r: (St, Outcome<Params>))
    requires Shape(cfg, st)
    ensures Shape(cfg, r.0)
    decreases cfg, 3, 1
  {
    var (st1, o, _) := CallLog(env, cfg, st, tick, up);
    (st1, if o.Throw? then Throw(o.exn) else Collect(st1.vars, cfg.ret))
  }

  // ----- the schedule names existing objects -----

  ghost predicate ValidCands(cfg: Cfg, cs: seq<Cand>) {
    forall c <- cs :: ValidRef(cfg, c.ref)
  }

  lemma {:induction false} CandsValid(cfg: Cfg, st: St, time: real, n: nat, m: nat)
    requires Shape(cfg, st) && n <= |cfg.children| && m <= |cfg.subs|
    ensures ValidCands(cfg, ChildCands(cfg, st, time, n)) && ValidCands(cfg, SubCands(cfg, st, m))
    decreases n + m
  {
    if n > 0 { CandsValid(cfg, st, time, n - 1, m); }
    if m > 0 { CandsValid(cfg, st, time, n, m - 1); }
  }

  lemma {:induction false} InsertMembers(s: seq<Cand>, c: Cand)
    ensures forall x <- Insert(s, c) :: x in s || x == c
    decreases |s|
  {
    if s != [] { InsertMembers(s[..|s| - 1], c); }
  }

  lemma {:induction false} InsertAllMembers(s: seq<Cand>, cs: seq<Cand>)
    ensures forall x <- InsertAll(s, cs) :: x in s || x in cs
    decreases |cs|
  {
    if cs != [] {
      InsertAllMembers(s, cs[..|cs| - 1]);
      InsertMembers(InsertAll(s, cs[..|cs| - 1]), cs[|cs| - 1]);
    }
  }

  lemma ScheduleValid(cfg: Cfg, st: St, time: real)
    requires Shape(cfg, st)
    ensures forall r <- Schedule(cfg, st, time) :: ValidRef(cfg, r)
  {
    var cs := Candidates(cfg, st, time);
    CandsValid(cfg, st, time, |cfg.children|, |cfg.subs|);
    InsertAllMembers([], cs);
    var sorted := InsertAll([], cs);
    forall r <- Refs(sorted) ensures ValidRef(cfg, r) {
      var i :| 0 <= i < |sorted| && r == sorted[i].ref;
      assert sorted[i] in cs;
    }
  }
}
