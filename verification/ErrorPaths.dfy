/** Error reporting: which names a step leaves behind, what they find again, and the message queue. */
module ErrorPaths {
  import opened Common
  import opened StringOrder
  import opened Values
  import opened Engine
  import opened Scheduling
  import opened StepLog
  import opened Frame
  import opened Timing
  import opened Names

  // ----- names of objects -----

  function NameOf(cfg: Cfg, ref: Ref): string {
    match ref
    case Child(i) => if i < |cfg.children| then cfg.children[i].name else ""
    case Sub(j) => if j < |cfg.subs| then cfg.subs[j].name else ""
  }

  /** The dot-joined chain of block names down the path, then the object's own name. */
  function Dotted(cfg: Cfg, path: seq<nat>, ref: Ref): string
    decreases path
  {
    if path == [] then NameOf(cfg, ref)
    else if path[0] < |cfg.children| then
      Join(cfg.children[path[0]].name, Dotted(cfg.children[path[0]], path[1..], ref))
    else ""
  }

  // ----- failures of a step -----

  /** Object ref of the block at path, counted from cfg, fails while this step runs. */
  ghost predicate Fails(env: Env, cfg: Cfg, st: St, tick: Tick, up: Params, path: seq<nat>, ref: Ref)
    requires Shape(cfg, st)
    decreases cfg, 3, 0
  {
    var (st1, o) := Begin(cfg, st, up);
    ScheduleValid(cfg, st1, tick.time);
    o.Ok? && FailsIn(env, cfg, st1, Schedule(cfg, st1, tick.time), tick, up, path, ref)
  }

  ghost predicate FailsIn(env: Env, cfg: Cfg, st: St, refs: seq<Ref>, tick: Tick, up: Params, path: seq<nat>, ref: Ref)
    requires Shape(cfg, st) && forall r <- refs :: ValidRef(cfg, r)
    decreases cfg, 2, |refs|
  {
    refs != [] &&
    (|| FailsDuring(env, cfg, st, refs[0], tick, up, path, ref)
     || (var (st1, o, _) := RunObj(env, cfg, st, refs[0], tick, up);
         o.Ok? && FailsIn(env, cfg, st1, refs[1..], tick, up, path, ref)))
  }

  /** The failure happens in the turn of object now: it is now itself, or it happens while now, a
      child block, is being called. */
  ghost predicate FailsDuring(env: Env, cfg: Cfg, st: St, now: Ref, tick: Tick, up: Params, path: seq<nat>, ref: Ref)
    requires Shape(cfg, st) && ValidRef(cfg, now)
    decreases cfg, 1, 0
  {
    var e := RunObj(env, cfg, st, now, tick, up).2;
    && Handled(e)
    && if path == [] then now == ref && e.out.Throw?
       else
         && now == Child(path[0]) && e.branch == Called
         && (var cc, c := cfg.children[path[0]], st.children[path[0]];
             assert Shape(cc, c);
             Fails(env, cc, PreCall(cc, c, tick.now), tick, Vals(st.vars), path[1..], ref))
  }

  /** No block below holds error names that have not been fetched. */
  ghost predicate Drained(cfg: Cfg, st: St)
    requires Shape(cfg, st)
    decreases cfg
  {
    forall i | 0 <= i < |cfg.children| :: st.children[i].errBlocks == {} && Drained(cfg.children[i], st.children[i])
  }

  predicate Escaped<T>(o: Outcome<T>) {
    o.Throw? && !o.exn.Caught()
  }

  lemma {:induction false} TouchDrained(cfg: Cfg, st: St, now: real)
    requires Shape(cfg, st) && Drained(cfg, st)
    ensures Drained(cfg, Touch(cfg, st, now)) && Touch(cfg, st, now).errBlocks == st.errBlocks
    decreases cfg
  {
    forall i | 0 <= i < |cfg.children|
      ensures var c := Touch(cfg, st, now).children[i]; c.errBlocks == {} && Drained(cfg.children[i], c)
    {
      TouchDrained(cfg.children[i], st.children[i], now);
    }
  }

  lemma {:induction false} PowerOffDrained(cfg: Cfg, st: St, i: nat)
    requires Shape(cfg, st) && i <= |cfg.children| && Drained(cfg, st)
    ensures var r := PowerOffFrom(cfg, st, i).0; Drained(cfg, r) && r.errBlocks == st.errBlocks
    decreases cfg, |cfg.children| - i
  {
    if i < |cfg.children| {
      PowerOffDrained(cfg.children[i], st.children[i], 0);
      var c1 := PowerOff(cfg.children[i], st.children[i]).0;
      var (st1, o) := PowerOffChild(cfg, st, i);
      assert st1.children == st.children[i := c1] && st1.errBlocks == st.errBlocks;
      if o.Ok? { PowerOffDrained(cfg, st1, i + 1); }
    }
  }

  /** An object's name is reported by this step. */
  ghost predicate Reports(env: Env, cfg: Cfg, st: St, tick: Tick, up: Params, e: string)
    requires Shape(cfg, st)
  {
    exists path: seq<nat>, ref: Ref :: Fails(env, cfg, st, tick, up, path, ref) && e == Dotted(cfg, path, ref)
  }

  ghost predicate ReportsIn(env: Env, cfg: Cfg, st: St, refs: seq<Ref>, tick: Tick, up: Params, e: string)
    requires Shape(cfg, st) && forall r <- refs :: ValidRef(cfg, r)
  {
    exists path: seq<nat>, ref: Ref :: FailsIn(env, cfg, st, refs, tick, up, path, ref) && e == Dotted(cfg, path, ref)
  }

  ghost predicate ReportsDuring(env: Env, cfg: Cfg, st: St, now: Ref, tick: Tick, up: Params, e: string)
    requires Shape(cfg, st) && ValidRef(cfg, now)
  {
    exists path: seq<nat>, ref: Ref :: FailsDuring(env, cfg, st, now, tick, up, path, ref) &&
      e == Dotted(cfg, path, ref)
  }

  lemma ReportsInStep(env: Env, cfg: Cfg, st: St, refs: seq<Ref>, tick: Tick, up: Params, e: string)
    requires Shape(cfg, st) && (forall r <- refs :: ValidRef(cfg, r)) && refs != []
    ensures var (st1, o, _) := RunObj(env, cfg, st, refs[0], tick, up);
            ReportsIn(env, cfg, st, refs, tick, up, e) <==>
            || ReportsDuring(env, cfg, st, refs[0], tick, up, e)
            || (o.Ok? && ReportsIn(env, cfg, st1, refs[1..], tick, up, e))
  {
    var (st1, o, _) := RunObj(env, cfg, st, refs[0], tick, up);
    if ReportsDuring(env, cfg, st, refs[0], tick, up, e) {
      var path, ref :| FailsDuring(env, cfg, st, refs[0], tick, up, path, ref) && e == Dotted(cfg, path, ref);
      assert FailsIn(env, cfg, st, refs, tick, up, path, ref);
    }
    if o.Ok? && ReportsIn(env, cfg, st1, refs[1..], tick, up, e) {
      var path, ref :| FailsIn(env, cfg, st1, refs[1..], tick, up, path, ref) && e == Dotted(cfg, path, ref);
      assert FailsIn(env, cfg, st, refs, tick, up, path, ref);
    }
  }

  /** The names found in a child after its guarded region are those of failures during its call. */
  ghost predicate ChildReports(env: Env, cc: Cfg, c: St, b: Branch, tick: Tick, vals: Params, e: string)
    requires Shape(cc, c)
  {
    b == Called && Reports(env, cc, PreCall(cc, c, tick.now), tick, vals, e)
  }

  lemma {:induction false} GuardChildNames(env: Env, cc: Cfg, c: St, vals: Params, tick: Tick)
    requires Shape(cc, c) && Drained(cc, c) && c.errBlocks == {}
    ensures var (c1, b, o) := GuardChild(env, cc, c, vals, tick);
            !Escaped(o) ==> Drained(cc, c1) && forall e :: e in c1.errBlocks <==>
              ChildReports(env, cc, c, b, tick, vals, e)
    decreases cc, 4
  {
    hide GuardChild, Switch, Call, CallLog, Fails;
    if Powered(cc.cond, vals) == Ok(true) && c.power {
      var c0 := PreCall(cc, c, tick.now);
      assert Drained(cc, c0);
      CallNames(env, cc, c0, tick, vals);
      EscapePassesThrough(env, cc, c0, tick, vals);
      GuardChildCalled(env, cc, c, vals, tick);
    } else {
      QuietSwitchNames(env, cc, c, vals, tick);
    }
  }

  lemma EscapePassesThrough(env: Env, cfg: Cfg, st: St, tick: Tick, up: Params)
    requires Shape(cfg, st)
    ensures Call(env, cfg, st, tick, up).0 == CallLog(env, cfg, st, tick, up).0
    ensures Escaped(CallLog(env, cfg, st, tick, up).1) ==> Escaped(Call(env, cfg, st, tick, up).1)
  {
  }

  lemma QuietSwitchNames(env: Env, cc: Cfg, c: St, vals: Params, tick: Tick)
    requires Shape(cc, c) && Drained(cc, c) && c.errBlocks == {}
    requires !(Powered(cc.cond, vals) == Ok(true) && c.power)
    ensures var (c1, b, _) := GuardChild(env, cc, c, vals, tick); b != Called && Drained(cc, c1) && c1.errBlocks == {}
  {
    hide Call, CallLog, PowerOffFrom, Touch;
    var p := Powered(cc.cond, vals);
    if p.Ok? {
      if p.value {
        TouchDrained(cc, WriteEdge(cc, c, cc.on).0, tick.now);
      } else if c.power {
        PowerOffDrained(cc, c, 0);
      }
    }
  }

  /** The three ways a name can come out of a child's turn. */
  ghost predicate ChildTurnNames(env: Env, cc: Cfg, c: St, vals: Params, tick: Tick, e: string)
    requires Shape(cc, c)
  {
    var (c1, b, o) := GuardChild(env, cc, c, vals, tick);
    (o.Throw? && e == cc.name) || exists d :: ChildReports(env, cc, c, b, tick, vals, d) && e == Join(cc.name, d)
  }

  lemma DuringChildOnlyIf(env: Env, cfg: Cfg, st: St, i: nat, tick: Tick, up: Params, path: seq<nat>, ref: Ref)
    requires Shape(cfg, st) && i < |cfg.children|
    requires FailsDuring(env, cfg, st, Child(i), tick, up, path, ref)
    ensures ChildTurnNames(env, cfg.children[i], st.children[i], Vals(st.vars), tick, Dotted(cfg, path, ref))
  {
    var cc, c := cfg.children[i], st.children[i];
    RunChildOutcome(env, cfg, st, i, tick, up);
    if path != [] {
      var d := Dotted(cc, path[1..], ref);
      assert Reports(env, cc, PreCall(cc, c, tick.now), tick, Vals(st.vars), d);
      assert ChildReports(env, cc, c, Called, tick, Vals(st.vars), d);
    }
  }

  lemma DuringChildIf(env: Env, cfg: Cfg, st: St, i: nat, tick: Tick, up: Params, e: string)
    requires Shape(cfg, st) && i < |cfg.children|
    requires !Escaped(GuardChild(env, cfg.children[i], st.children[i], Vals(st.vars), tick).2)
    requires ChildTurnNames(env, cfg.children[i], st.children[i], Vals(st.vars), tick, e)
    ensures ReportsDuring(env, cfg, st, Child(i), tick, up, e)
  {
    var cc, c := cfg.children[i], st.children[i];
    var (c1, b, o) := GuardChild(env, cc, c, Vals(st.vars), tick);
    RunChildOutcome(env, cfg, st, i, tick, up);
    if o.Throw? && e == cc.name {
      assert FailsDuring(env, cfg, st, Child(i), tick, up, [], Child(i)) && e == Dotted(cfg, [], Child(i));
    } else {
      var d :| ChildReports(env, cc, c, b, tick, Vals(st.vars), d) && e == Join(cc.name, d);
      var path: seq<nat>, ref: Ref :| Fails(env, cc, PreCall(cc, c, tick.now), tick, Vals(st.vars), path, ref) &&
        d == Dotted(cc, path, ref);
      assert ([i] + path)[1..] == path;
      assert FailsDuring(env, cfg, st, Child(i), tick, up, [i] + path, ref) && e == Dotted(cfg, [i] + path, ref);
    }
  }

  lemma DuringChild(env: Env, cfg: Cfg, st: St, i: nat, tick: Tick, up: Params, e: string)
    requires Shape(cfg, st) && i < |cfg.children|
    requires !Escaped(GuardChild(env, cfg.children[i], st.children[i], Vals(st.vars), tick).2)
    ensures ReportsDuring(env, cfg, st, Child(i), tick, up, e) <==>
            ChildTurnNames(env, cfg.children[i], st.children[i], Vals(st.vars), tick, e)
  {
    if ReportsDuring(env, cfg, st, Child(i), tick, up, e) {
      var path: seq<nat>, ref: Ref :| FailsDuring(env, cfg, st, Child(i), tick, up, path, ref) &&
        e == Dotted(cfg, path, ref);
      DuringChildOnlyIf(env, cfg, st, i, tick, up, path, ref);
    } else if ChildTurnNames(env, cfg.children[i], st.children[i], Vals(st.vars), tick, e) {
      DuringChildIf(env, cfg, st, i, tick, up, e);
    }
  }

  lemma DuringSub(env: Env, cfg: Cfg, st: St, j: nat, tick: Tick, up: Params, e: string)
    requires Shape(cfg, st) && j < |cfg.subs|
    ensures var o := GuardSub(env, cfg.subs[j], st.subs[j], Vals(st.vars), tick, up).2;
            !Escaped(o) ==> (ReportsDuring(env, cfg, st, Sub(j), tick, up, e) <==> o.Throw? && e == cfg.subs[j].name)
  {
    var o := GuardSub(env, cfg.subs[j], st.subs[j], Vals(st.vars), tick, up).2;
    if o.Throw? && !Escaped(o) {
      assert FailsDuring(env, cfg, st, Sub(j), tick, up, [], Sub(j)) && cfg.subs[j].name == Dotted(cfg, [], Sub(j));
    }
  }

  /** What Handle and Drain make of the names found in the child. */
  lemma ChildTurnErrBlocks(env: Env, cfg: Cfg, st: St, i: nat, tick: Tick, up: Params)
    requires Shape(cfg, st) && i < |cfg.children|
    ensures var (c1, b, g) := GuardChild(env, cfg.children[i], st.children[i], Vals(st.vars), tick);
            !Escaped(g) ==>
            RunObj(env, cfg, st, Child(i), tick, up).0.errBlocks ==
            st.errBlocks + (if g.Throw? then {cfg.children[i].name} else {}) +
            set d | d in c1.errBlocks :: Join(cfg.children[i].name, d)
  {
  }

  lemma JoinedNames(env: Env, cc: Cfg, c: St, vals: Params, tick: Tick, e: string)
    requires Shape(cc, c)
    requires var (c1, b, g) := GuardChild(env, cc, c, vals, tick);
             forall d :: d in c1.errBlocks <==> ChildReports(env, cc, c, b, tick, vals, d)
    ensures var (c1, b, g) := GuardChild(env, cc, c, vals, tick);
            ChildTurnNames(env, cc, c, vals, tick, e) <==>
            e in (if g.Throw? then {cc.name} else {}) + set d | d in c1.errBlocks :: Join(cc.name, d)
  {
  }

  /** Only the child that had its turn can have become undrained. */
  lemma RunChildDrained(env: Env, cfg: Cfg, st: St, i: nat, tick: Tick, up: Params)
    requires Shape(cfg, st) && i < |cfg.children| && Drained(cfg, st)
    requires var (c1, b, g) := GuardChild(env, cfg.children[i], st.children[i], Vals(st.vars), tick);
             !Escaped(g) && Drained(cfg.children[i], c1)
    ensures Drained(cfg, RunObj(env, cfg, st, Child(i), tick, up).0)
  {
    hide GuardChild, RunObj;
    RunChildOutcome(env, cfg, st, i, tick, up);
    RunObjLocal(env, cfg, st, Child(i), tick, up);
  }

  lemma RunChildErrBlocks(env: Env, cfg: Cfg, st: St, i: nat, tick: Tick, up: Params)
    requires Shape(cfg, st) && i < |cfg.children|
    requires var (c1, b, g) := GuardChild(env, cfg.children[i], st.children[i], Vals(st.vars), tick);
             && !Escaped(g)
             && forall e :: e in c1.errBlocks <==>
                  ChildReports(env, cfg.children[i], st.children[i], b, tick, Vals(st.vars), e)
    ensures forall e :: e in RunObj(env, cfg, st, Child(i), tick, up).0.errBlocks <==>
                        e in st.errBlocks || ReportsDuring(env, cfg, st, Child(i), tick, up, e)
  {
    hide GuardChild, RunObj, ReportsDuring, ChildTurnNames, ChildReports;
    ChildTurnErrBlocks(env, cfg, st, i, tick, up);
    forall e
      ensures e in RunObj(env, cfg, st, Child(i), tick, up).0.errBlocks <==>
              e in st.errBlocks || ReportsDuring(env, cfg, st, Child(i), tick, up, e)
    {
      DuringChild(env, cfg, st, i, tick, up, e);
      JoinedNames(env, cfg.children[i], st.children[i], Vals(st.vars), tick, e);
    }
  }

  lemma {:induction false} RunChildNames(env: Env, cfg: Cfg, st: St, i: nat, tick: Tick, up: Params)
    requires Shape(cfg, st) && i < |cfg.children| && Drained(cfg, st)
    ensures var (r, o, en) := RunObj(env, cfg, st, Child(i), tick, up);
            !Escaped(en.out) ==>
            Drained(cfg, r) &&
              forall e :: e in r.errBlocks <==> e in st.errBlocks || ReportsDuring(env, cfg, st, Child(i), tick, up, e)
    decreases cfg, 1, 0
  {
    hide GuardChild, RunObj, ReportsDuring, ChildReports;
    RunChildOutcome(env, cfg, st, i, tick, up);
    if !Escaped(GuardChild(env, cfg.children[i], st.children[i], Vals(st.vars), tick).2) {
      GuardChildNames(env, cfg.children[i], st.children[i], Vals(st.vars), tick);
      RunChildDrained(env, cfg, st, i, tick, up);
      RunChildErrBlocks(env, cfg, st, i, tick, up);
    }
  }

  lemma {:induction false} RunObjNames(env: Env, cfg: Cfg, st: St, now: Ref, tick: Tick, up: Params)
    requires Shape(cfg, st) && ValidRef(cfg, now) && Drained(cfg, st)
    ensures var (r, o, _) := RunObj(env, cfg, st, now, tick, up);
            !Escaped(o) ==>
            Drained(cfg, r) &&
              forall e :: e in r.errBlocks <==> e in st.errBlocks || ReportsDuring(env, cfg, st, now, tick, up, e)
    decreases cfg, 1, 1
  {
    var (r, o, en) := RunObj(env, cfg, st, now, tick, up);
    match now
    case Sub(j) =>
      RunObjLocal(env, cfg, st, now, tick, up);
      forall e ensures !Escaped(o) ==>
        (e in r.errBlocks <==> e in st.errBlocks || ReportsDuring(env, cfg, st, now, tick, up, e)) {
        DuringSub(env, cfg, st, j, tick, up, e);
      }
    case Child(i) =>
      RunChildNames(env, cfg, st, i, tick, up);
      RunChildOutcome(env, cfg, st, i, tick, up);
  }

  lemma {:induction false} RunObjsNames(env: Env, cfg: Cfg, st: St, refs: seq<Ref>, tick: Tick, up: Params)
    requires Shape(cfg, st) && (forall r <- refs :: ValidRef(cfg, r)) && Drained(cfg, st)
    ensures var (r, o, _) := RunObjs(env, cfg, st, refs, tick, up);
            !Escaped(o) ==>
            Drained(cfg, r) &&
              forall e :: e in r.errBlocks <==> e in st.errBlocks || ReportsIn(env, cfg, st, refs, tick, up, e)
    decreases cfg, 2, |refs|
  {
    if refs != [] {
      assert ValidRef(cfg, refs[0]);
      RunObjNames(env, cfg, st, refs[0], tick, up);
      var (st1, o, _) := RunObj(env, cfg, st, refs[0], tick, up);
      if o.Ok? { RunObjsNames(env, cfg, st1, refs[1..], tick, up); }
      forall e { ReportsInStep(env, cfg, st, refs, tick, up, e); }
    }
  }

  /** A step that is not torn down by an uncaught exception adds to the error names of its block
      exactly the dotted paths of the objects that failed in it, at whatever depth, and leaves no
      names behind below. */
  lemma {:induction false} CallNames(env: Env, cfg: Cfg, st: St, tick: Tick, up: Params)
    requires Shape(cfg, st) && Drained(cfg, st)
    ensures var (r, o) := Call(env, cfg, st, tick, up);
            !Escaped(CallLog(env, cfg, st, tick, up).1) ==>
            Drained(cfg, r) &&
              forall e :: e in r.errBlocks <==> e in st.errBlocks || Reports(env, cfg, st, tick, up, e)
    decreases cfg, 3
  {
    var (st1, o) := Begin(cfg, st, up);
    if o.Ok? {
      ScheduleValid(cfg, st1, tick.time);
      var refs := Schedule(cfg, st1, tick.time);
      RunObjsNames(env, cfg, st1, refs, tick, up);
      forall e ensures ReportsIn(env, cfg, st1, refs, tick, up, e) <==> Reports(env, cfg, st, tick, up, e) {
        if ReportsIn(env, cfg, st1, refs, tick, up, e) {
          var path, ref :| FailsIn(env, cfg, st1, refs, tick, up, path, ref) && e == Dotted(cfg, path, ref);
          assert Fails(env, cfg, st, tick, up, path, ref);
        }
      }
    }
  }

  // ----- finding the block again -----

  predicate DotFree(name: string) {
    name != "" && '.' !in name
  }

  /** Names are non-empty and free of dots, and no two children share one. */
  ghost predicate NamesOk(cfg: Cfg)
    decreases cfg
  {
    && (forall i | 0 <= i < |cfg.children| :: DotFree(cfg.children[i].name) && NamesOk(cfg.children[i]))
    && (forall i, k | 0 <= i < k < |cfg.children| :: cfg.children[i].name != cfg.children[k].name)
  }

  /** get_child: the path of child numbers behind a dotted name. */
  function GetChild(cfg: Cfg, name: string): Option<seq<nat>>
    decreases cfg
  {
    var (h, t) := ExtractBlockName(name);
    FoundIsChild(cfg.children, h, 0);
    match FindChild(cfg.children, h, 0)
    case None => None
    case Some(i) =>
      if t == "" then Some([i])
      else
        match GetChild(cfg.children[i], t)
        case None => None
        case Some(rest) => Some([i] + rest)
  }

  predicate ValidPath(cfg: Cfg, path: seq<nat>)
    decreases path
  {
    path == [] || (path[0] < |cfg.children| && ValidPath(cfg.children[path[0]], path[1..]))
  }

  /** The dotted name of the block at a path. */
  function BlockPath(cfg: Cfg, path: seq<nat>): string
    requires ValidPath(cfg, path) && path != []
    decreases path
  {
    var c := cfg.children[path[0]];
    if |path| == 1 then c.name else Join(c.name, BlockPath(c, path[1..]))
  }

  lemma {:induction false} BlockPathNotEmpty(cfg: Cfg, path: seq<nat>)
    requires ValidPath(cfg, path) && path != [] && NamesOk(cfg)
    ensures BlockPath(cfg, path) != ""
  {
  }

  function At(cfg: Cfg, path: seq<nat>): Cfg
    requires ValidPath(cfg, path)
    decreases path
  {
    if path == [] then cfg else At(cfg.children[path[0]], path[1..])
  }

  /** A reported name is the dotted name of the owning block, a dot, and the object's own name. */
  lemma {:induction false} DottedSplits(cfg: Cfg, path: seq<nat>, ref: Ref)
    requires ValidPath(cfg, path) && path != []
    ensures Dotted(cfg, path, ref) == Join(BlockPath(cfg, path), NameOf(At(cfg, path), ref))
    decreases path
  {
    var c := cfg.children[path[0]];
    if |path| == 1 {
      assert path[1..] == [];
    } else {
      DottedSplits(c, path[1..], ref);
      assert c.name + "." + (BlockPath(c, path[1..]) + "." + NameOf(At(cfg, path), ref)) ==
             c.name + "." + BlockPath(c, path[1..]) + "." + NameOf(At(cfg, path), ref);
    }
  }

  /** get_child on that prefix finds the owning block. */
  lemma {:induction false} GetChildFindsOwner(cfg: Cfg, path: seq<nat>)
    requires ValidPath(cfg, path) && path != [] && NamesOk(cfg)
    ensures GetChild(cfg, BlockPath(cfg, path)) == Some(path)
    decreases path
  {
    var c := cfg.children[path[0]];
    FindChildFinds(cfg.children, path[0], 0);
    if |path| == 1 {
      ExtractPlain(c.name);
      assert path == [path[0]];
    } else {
      ExtractJoined(c.name, BlockPath(c, path[1..]));
      BlockPathNotEmpty(c, path[1..]);
      GetChildFindsOwner(c, path[1..]);
      assert path == [path[0]] + path[1..];
    }
  }

  /** An object that exists, at a path that exists. */
  ghost predicate Exists(cfg: Cfg, path: seq<nat>, ref: Ref) {
    ValidPath(cfg, path) && ValidRef(At(cfg, path), ref)
  }

  lemma {:induction false} FailureExists(env: Env, cfg: Cfg, st: St, tick: Tick, up: Params, path: seq<nat>, ref: Ref)
    requires Shape(cfg, st) && Fails(env, cfg, st, tick, up, path, ref)
    ensures Exists(cfg, path, ref)
    decreases cfg, 3
  {
    var st1 := Begin(cfg, st, up).0;
    ScheduleValid(cfg, st1, tick.time);
    FailureInExists(env, cfg, st1, Schedule(cfg, st1, tick.time), tick, up, path, ref);
  }

  lemma {:induction false} FailureInExists(env: Env, cfg: Cfg, st: St, refs: seq<Ref>, tick: Tick, up: Params,
          path: seq<nat>, ref: Ref)
    requires Shape(cfg, st) && (forall r <- refs :: ValidRef(cfg, r)) &&
             FailsIn(env, cfg, st, refs, tick, up, path, ref)
    ensures Exists(cfg, path, ref)
    decreases cfg, 2, |refs|
  {
    assert ValidRef(cfg, refs[0]);
    if FailsDuring(env, cfg, st, refs[0], tick, up, path, ref) {
      FailureDuringExists(env, cfg, st, refs[0], tick, up, path, ref);
    } else {
      FailureInExists(env, cfg, RunObj(env, cfg, st, refs[0], tick, up).0, refs[1..], tick, up, path, ref);
    }
  }

  lemma {:induction false} FailureDuringExists(env: Env, cfg: Cfg, st: St, now: Ref, tick: Tick, up: Params,
          path: seq<nat>, ref: Ref)
    requires Shape(cfg, st) && ValidRef(cfg, now) && FailsDuring(env, cfg, st, now, tick, up, path, ref)
    ensures Exists(cfg, path, ref)
    decreases cfg, 1
  {
    hide Fails, RunObj;
    if path != [] {
      var cc, c := cfg.children[path[0]], st.children[path[0]];
      FailureExists(env, cc, PreCall(cc, c, tick.now), tick, Vals(st.vars), path[1..], ref);
    }
  }

  /** What a reported name leads to: the failed object of the reporting block itself, or the block that
      get_child finds under the name's proper prefix. */
  lemma ReportedNameFindsOwner(env: Env, cfg: Cfg, st: St, tick: Tick, up: Params, e: string) returns (path: seq<nat>,
          ref: Ref)
    requires Shape(cfg, st) && NamesOk(cfg) && Reports(env, cfg, st, tick, up, e)
    ensures Fails(env, cfg, st, tick, up, path, ref) && Exists(cfg, path, ref)
    ensures if path == [] then e == NameOf(cfg, ref)
            else
              && e == Join(BlockPath(cfg, path), NameOf(At(cfg, path), ref))
              && GetChild(cfg, BlockPath(cfg, path)) == Some(path)
  {
    path, ref :| Fails(env, cfg, st, tick, up, path, ref) && e == Dotted(cfg, path, ref);
    FailureExists(env, cfg, st, tick, up, path, ref);
    if path != [] {
      DottedSplits(cfg, path, ref);
      GetChildFindsOwner(cfg, path);
    }
  }

  // ----- the message queue -----

  function Message(cfg: Cfg, e: Entry): seq<ErrorMsg> {
    if e.out.Throw? && e.out.exn.Caught() then [ErrorMsg(NameOf(cfg, e.ref), e.out.exn)] else []
  }

  /** The messages of one step: one for each handled failure of the log, in log order. */
  function Messages(cfg: Cfg, log: seq<Entry>): seq<ErrorMsg> {
    if log == [] then [] else Message(cfg, log[0]) + Messages(cfg, log[1..])
  }

  lemma MessagesCons(cfg: Cfg, e: Entry, log: seq<Entry>, queue: seq<ErrorMsg>)
    ensures queue + Messages(cfg, [e] + log) == queue + Message(cfg, e) + Messages(cfg, log)
  {
    assert ([e] + log)[1..] == log;
  }

  lemma {:induction false} RunObjsMessages(env: Env, cfg: Cfg, st: St, refs: seq<Ref>, tick: Tick, up: Params)
    requires Shape(cfg, st) && forall r <- refs :: ValidRef(cfg, r)
    ensures var (r, _, log) := RunObjs(env, cfg, st, refs, tick, up); r.errors == st.errors + Messages(cfg, log)
    decreases |refs|
  {
    if refs != [] {
      assert ValidRef(cfg, refs[0]);
      RunObjMessages(env, cfg, st, refs[0], tick, up);
      var (st1, o, e) := RunObj(env, cfg, st, refs[0], tick, up);
      if o.Throw? {
        MessagesCons(cfg, e, [], st.errors);
      } else {
        RunObjsMessages(env, cfg, st1, refs[1..], tick, up);
        MessagesCons(cfg, e, RunObjs(env, cfg, st1, refs[1..], tick, up).2, st.errors);
      }
    }
  }

  lemma RunObjMessages(env: Env, cfg: Cfg, st: St, ref: Ref, tick: Tick, up: Params)
    requires Shape(cfg, st) && ValidRef(cfg, ref)
    ensures var (r, _, e) := RunObj(env, cfg, st, ref, tick, up);
            && e.ref == ref
            && r.errors == st.errors + Message(cfg, e)
  {
  }

  /** What happens to the queue of one block: a call pushes, get_next_errors fetches. */
  datatype BlockEvent = Turn(input: Input) | Fetch(max: nat)

  /** The state after the events, the batches delivered, and every message pushed on the way. */
  function Serve(env: Env, cfg: Cfg, st: St, events: seq<BlockEvent>): (r: (St, seq<ErrorMsg>, seq<ErrorMsg>))
    requires Shape(cfg, st)
    ensures Shape(cfg, r.0)
    decreases |events|
  {
    if events == [] then (st, [], [])
    else
      match events[0]
      case Turn(input) =>
        var st1 := Call(env, cfg, st, input.tick, input.up).0;
        var (r, delivered, pushed) := Serve(env, cfg, st1, events[1..]);
        (r, delivered, Messages(cfg, CallLog(env, cfg, st, input.tick, input.up).2) + pushed)
      case Fetch(max) =>
        var n := if max < |st.errors| then max else |st.errors|;
        var (r, delivered, pushed) := Serve(env, cfg, st.(errors := st.errors[n..]), events[1..]);
        (r, st.errors[..n] + delivered, pushed)
  }

  /** Nothing is lost, repeated or reordered: the batches delivered, followed by the queue, are the
      old queue followed by every message pushed. */
  lemma {:induction false} MessagesConserved(env: Env, cfg: Cfg, st: St, events: seq<BlockEvent>)
    requires Shape(cfg, st)
    ensures var (r, delivered, pushed) := Serve(env, cfg, st, events); delivered + r.errors == st.errors + pushed
    decreases |events|, 1
  {
    if events != [] {
      match events[0]
      case Turn(input) => RunConserves(env, cfg, st, events);
      case Fetch(max) => FetchThenConserves(env, cfg, st, events);
    }
  }

  lemma {:induction false} RunConserves(env: Env, cfg: Cfg, st: St, events: seq<BlockEvent>)
    requires Shape(cfg, st) && events != [] && events[0].Turn?
    ensures var (r, delivered, pushed) := Serve(env, cfg, st, events); delivered + r.errors == st.errors + pushed
    decreases |events|, 0
  {
    var input := events[0].input;
    var st1 := Call(env, cfg, st, input.tick, input.up).0;
    CallMessages(env, cfg, st, input.tick, input.up);
    MessagesConserved(env, cfg, st1, events[1..]);
    PushConserves(st.errors, Messages(cfg, CallLog(env, cfg, st, input.tick, input.up).2),
      Serve(env, cfg, st1, events[1..]).2);
  }

  lemma PushConserves(queue: seq<ErrorMsg>, msgs: seq<ErrorMsg>, pushed: seq<ErrorMsg>)
    ensures queue + msgs + pushed == queue + (msgs + pushed)
  {
  }

  lemma {:induction false} FetchThenConserves(env: Env, cfg: Cfg, st: St, events: seq<BlockEvent>)
    requires Shape(cfg, st) && events != [] && events[0].Fetch?
    ensures var (r, delivered, pushed) := Serve(env, cfg, st, events); delivered + r.errors == st.errors + pushed
    decreases |events|, 0
  {
    var max := events[0].max;
    var n := if max < |st.errors| then max else |st.errors|;
    var st1 := st.(errors := st.errors[n..]);
    MessagesConserved(env, cfg, st1, events[1..]);
    var (r, delivered, pushed) := Serve(env, cfg, st1, events[1..]);
    FetchConserves(st.errors, n, delivered, r.errors, pushed);
  }

  lemma FetchConserves(queue: seq<ErrorMsg>, n: nat, delivered: seq<ErrorMsg>, rest: seq<ErrorMsg>,
                       pushed: seq<ErrorMsg>)
    requires n <= |queue| && delivered + rest == queue[n..] + pushed
    ensures queue[..n] + delivered + rest == queue + pushed
  {
    assert queue[..n] + delivered + rest == queue[..n] + (delivered + rest);
    assert queue[..n] + (queue[n..] + pushed) == queue + pushed;
  }

  lemma CallMessages(env: Env, cfg: Cfg, st: St, tick: Tick, up: Params)
    requires Shape(cfg, st)
    ensures Call(env, cfg, st, tick, up).0.errors == st.errors + Messages(cfg, CallLog(env, cfg, st, tick, up).2)
  {
    var (st1, o) := Begin(cfg, st, up);
    if o.Ok? {
      ScheduleValid(cfg, st1, tick.time);
      RunObjsMessages(env, cfg, st1, Schedule(cfg, st1, tick.time), tick, up);
    }
  }
}
