/** How often a periodic child runs: drift-free planning over whole runs of its parent. */
module Timing {
  import opened Common
  import opened StringOrder
  import opened Values
  import opened Engine
  import opened Scheduling
  import opened StepLog
  import opened Frame

  /** The arguments of one call of the parent block. */
  datatype Input = Input(tick: Tick, up: Params)

  /** The parent after a sequence of calls. */
  function RunCalls(env: Env, cfg: Cfg, st: St, ins: seq<Input>): (r: St)
    requires Shape(cfg, st)
    ensures Shape(cfg, r)
  {
    if ins == [] then st
    else
      var last := ins[|ins| - 1];
      Call(env, cfg, RunCalls(env, cfg, st, ins[..|ins| - 1]), last.tick, last.up).0
  }

  predicate Entered(log: seq<Entry>, i: nat, b: Branch) {
    exists e <- log :: e.ref == Child(i) && e.branch == b
  }

  predicate Processed(log: seq<Entry>, i: nat) {
    exists e <- log :: e.ref == Child(i)
  }

  function LogOfLast(env: Env, cfg: Cfg, st: St, ins: seq<Input>): seq<Entry>
    requires Shape(cfg, st) && ins != []
  {
    var last := ins[|ins| - 1];
    CallLog(env, cfg, RunCalls(env, cfg, st, ins[..|ins| - 1]), last.tick, last.up).2
  }

  /** In how many of the calls child i was called. */
  function CallCount(env: Env, cfg: Cfg, st: St, ins: seq<Input>, i: nat): nat
    requires Shape(cfg, st)
  {
    if ins == [] then 0
    else
      CallCount(env, cfg, st, ins[..|ins| - 1], i) +
      if Entered(LogOfLast(env, cfg, st, ins), i, Called) then 1 else 0
  }

  /** No call of the parent is cut short, and whenever child i comes up it is powered and was
      powered: its power condition never fails and no edge occurs. */
  ghost predicate Steady(env: Env, cfg: Cfg, st: St, ins: seq<Input>, i: nat)
    requires Shape(cfg, st)
  {
    ins == [] ||
    var last := ins[|ins| - 1];
    && Steady(env, cfg, st, ins[..|ins| - 1], i)
    && CallLog(env, cfg, RunCalls(env, cfg, st, ins[..|ins| - 1]), last.tick, last.up).1.Ok?
    && (Processed(LogOfLast(env, cfg, st, ins), i) ==> Entered(LogOfLast(env, cfg, st, ins), i, Called))
  }

  /** A child comes up in the log exactly when it is scheduled. */
  lemma ProcessedIffScheduled(env: Env, cfg: Cfg, st: St, refs: seq<Ref>, tick: Tick, up: Params, i: nat)
    requires Shape(cfg, st) && (forall r <- refs :: ValidRef(cfg, r)) && RunObjs(env, cfg, st, refs, tick, up).1.Ok?
    ensures Processed(RunObjs(env, cfg, st, refs, tick, up).2, i) <==> Child(i) in refs
  {
    LogFollowsRefs(env, cfg, st, refs, tick, up);
    var log := RunObjs(env, cfg, st, refs, tick, up).2;
    if Processed(log, i) {
      var e :| e in log && e.ref == Child(i);
      var n :| 0 <= n < |log| && log[n] == e;
      assert refs[n] == Child(i);
    }
    if Child(i) in refs {
      var n :| 0 <= n < |refs| && refs[n] == Child(i);
      assert log[n] in log;
    }
  }

  /** An unblocked child comes up exactly when its plan is past; otherwise it is left alone. */
  lemma ProcessedIffDue(env: Env, cfg: Cfg, st: St, tick: Tick, up: Params, i: nat)
    requires Shape(cfg, st) && i < |cfg.children| && !st.children[i].blocked
    requires CallLog(env, cfg, st, tick, up).1.Ok?
    ensures var (r, _, log) := CallLog(env, cfg, st, tick, up);
            && (Processed(log, i) <==> tick.time > st.children[i].plan)
            && (!Processed(log, i) ==> r.children[i] == st.children[i])
  {
    var st1 := Begin(cfg, st, up).0;
    ScheduleIsStableSort(cfg, st1, tick.time);
    var refs := Schedule(cfg, st1, tick.time);
    LogFollowsRefs(env, cfg, st1, refs, tick, up);
    ProcessedIffScheduled(env, cfg, st1, refs, tick, up, i);
    assert Eligible(cfg, st1, tick.time, Child(i)) <==> tick.time > st.children[i].plan;
  }

  /** A call moves the plan on by one period, whether it returns or throws. */
  lemma CalledAdvancesPlan(env: Env, cfg: Cfg, st: St, tick: Tick, up: Params, i: nat)
    requires Shape(cfg, st) && i < |cfg.children|
    requires CallLog(env, cfg, st, tick, up).1.Ok? && Entered(CallLog(env, cfg, st, tick, up).2, i, Called)
    ensures CallLog(env, cfg, st, tick, up).0.children[i].plan == st.children[i].plan + cfg.children[i].period
  {
    var st1 := Begin(cfg, st, up).0;
    ScheduleIsStableSort(cfg, st1, tick.time);
    var refs := Schedule(cfg, st1, tick.time);
    LogFollowsRefs(env, cfg, st1, refs, tick, up);
    CalledAdvancesIn(env, cfg, st1, refs, tick, up, i);
  }

  lemma CalledAdvancesIn(env: Env, cfg: Cfg, st: St, refs: seq<Ref>, tick: Tick, up: Params, i: nat)
    requires Shape(cfg, st) && i < |cfg.children| && (forall r <- refs :: ValidRef(cfg, r)) && NoDuplicates(refs)
    requires RunObjs(env, cfg, st, refs, tick, up).1.Ok? && Entered(RunObjs(env, cfg, st, refs, tick, up).2, i, Called)
    ensures RunObjs(env, cfg, st, refs, tick, up).0.children[i].plan == st.children[i].plan + cfg.children[i].period
  {
    hide RunObjs, RunObj;
    LogFollowsRefs(env, cfg, st, refs, tick, up);
    var log := RunObjs(env, cfg, st, refs, tick, up).2;
    var e :| e in log && e.ref == Child(i) && e.branch == Called;
    var n :| 0 <= n < |log| && log[n] == e;
    var vals := ChildOutcome(env, cfg, st, refs, tick, up, n, i);
    CallKeepsFlag(env, cfg.children[i], PreCall(cfg.children[i], st.children[i], tick.now), tick, vals);
  }

  lemma StaysUnblocked(env: Env, cfg: Cfg, st: St, tick: Tick, up: Params, i: nat)
    requires Shape(cfg, st) && i < |cfg.children|
    ensures CallLog(env, cfg, st, tick, up).0.children[i].blocked == st.children[i].blocked
  {
    CallFramed(env, cfg, st, tick, up);
    var r := Call(env, cfg, st, tick, up).0;
    assert Framed(cfg.children[i], st.children[i], r.children[i]);
  }

  /** The effect of one steady call of the parent on the plan of child i. */
  lemma SteadyStep(env: Env, cfg: Cfg, st: St, tick: Tick, up: Params, i: nat)
    requires Shape(cfg, st) && i < |cfg.children| && !st.children[i].blocked
    requires CallLog(env, cfg, st, tick, up).1.Ok?
    requires var log := CallLog(env, cfg, st, tick, up).2; Processed(log, i) ==> Entered(log, i, Called)
    ensures var (r, _, log) := CallLog(env, cfg, st, tick, up);
            && !r.children[i].blocked
            && (Entered(log, i, Called) <==> tick.time > st.children[i].plan)
            && r.children[i].plan == st.children[i].plan + if Entered(log, i, Called) then cfg.children[i].period
                 else 0.0
  {
    ProcessedIffDue(env, cfg, st, tick, up, i);
    StaysUnblocked(env, cfg, st, tick, up, i);
    var log := CallLog(env, cfg, st, tick, up).2;
    if Entered(log, i, Called) { CalledAdvancesPlan(env, cfg, st, tick, up, i); }
  }

  /** n periods of length p. */
  function Periods(n: nat, p: real): real {
    if n == 0 then 0.0 else Periods(n - 1, p) + p
  }

  /** The plan counts the calls. */
  lemma {:induction false} PlanCountsCalls(env: Env, cfg: Cfg, st: St, ins: seq<Input>, i: nat)
    requires Shape(cfg, st) && i < |cfg.children| && !st.children[i].blocked
    requires Steady(env, cfg, st, ins, i)
    ensures var r := RunCalls(env, cfg, st, ins);
            && !r.children[i].blocked
            && r.children[i].plan == st.children[i].plan +
                 Periods(CallCount(env, cfg, st, ins, i), cfg.children[i].period)
    decreases |ins|
  {
    if ins != [] {
      PlanCountsCalls(env, cfg, st, ins[..|ins| - 1], i);
      LastStep(env, cfg, st, ins, i);
    }
  }

  /** The last call of a steady run, seen from child i. */
  lemma LastStep(env: Env, cfg: Cfg, st: St, ins: seq<Input>, i: nat)
    requires Shape(cfg, st) && i < |cfg.children| && ins != []
    requires Steady(env, cfg, st, ins, i) && !RunCalls(env, cfg, st, ins[..|ins| - 1]).children[i].blocked
    ensures var before := ins[..|ins| - 1];
            var plan0 := RunCalls(env, cfg, st, before).children[i].plan;
            var c := RunCalls(env, cfg, st, ins).children[i];
            var called := ins[|ins| - 1].tick.time > plan0;
            && Steady(env, cfg, st, before, i) && !c.blocked
            && c.plan == plan0 + (if called then cfg.children[i].period else 0.0)
            && CallCount(env, cfg, st, ins, i) == CallCount(env, cfg, st, before, i) + (if called then 1 else 0)
            && (Entered(LogOfLast(env, cfg, st, ins), i, Called) <==> called)
  {
    var last := ins[|ins| - 1];
    SteadyStep(env, cfg, RunCalls(env, cfg, st, ins[..|ins| - 1]), last.tick, last.up, i);
  }

  function LastTime(ins: seq<Input>, t0: real): real {
    if ins == [] then t0 else ins[|ins| - 1].tick.time
  }

  /** From t0 on, model times do not go back and never advance by more than gap. */
  predicate Paced(ins: seq<Input>, t0: real, gap: real) {
    ins == [] ||
    var before := ins[..|ins| - 1];
    Paced(before, t0, gap) && LastTime(before, t0) <= LastTime(ins, t0) <= LastTime(before, t0) + gap
  }

  /** With steps at most one period apart the plan is never behind, and never a full period ahead. */
  lemma {:induction false} PlanKeepsUp(env: Env, cfg: Cfg, st: St, ins: seq<Input>, i: nat, t0: real)
    requires Shape(cfg, st) && i < |cfg.children| && !st.children[i].blocked
    requires Steady(env, cfg, st, ins, i)
    requires Paced(ins, t0, cfg.children[i].period)
    requires t0 <= st.children[i].plan < t0 + cfg.children[i].period
    ensures var t := LastTime(ins, t0);
            t <= RunCalls(env, cfg, st, ins).children[i].plan < t + cfg.children[i].period
    decreases |ins|
  {
    if ins != [] {
      var before, last := ins[..|ins| - 1], ins[|ins| - 1];
      PlanKeepsUp(env, cfg, st, before, i, t0);
      PlanCountsCalls(env, cfg, st, before, i);
      LastStep(env, cfg, st, ins, i);
    }
  }

  function Ceil(x: real): int {
    -((-x).Floor)
  }

  lemma {:induction false} PeriodsIsProduct(n: nat, p: real)
    ensures Periods(n, p) == n as real * p
  {
    if n > 0 {
      PeriodsIsProduct(n - 1, p);
      assert (n - 1) as real * p + p == n as real * p;
    }
  }

  lemma CeilUnique(x: real, n: int)
    requires n as real - 1.0 < x <= n as real
    ensures n == Ceil(x)
  {
  }

  /** x lies in the unit interval below n when its multiple does. */
  lemma WithinOne(x: real, n: real, p: real, xp: real, np: real)
    requires p > 0.0 && xp == x * p && np == n * p && np - p < xp <= np
    ensures n - 1.0 < x <= n
  {
    LessOne(n, p);
    Scale(x, n, p);
    Scale(n - 1.0, x, p);
  }

  lemma CeilBetween(t: real, p0: real, p: real, n: nat)
    requires p > 0.0 && t <= p0 + Periods(n, p) < t + p
    ensures n == Ceil((t - p0) / p)
  {
    var x := (t - p0) / p;
    PeriodsIsProduct(n, p);
    QuotientTimes(t - p0, p);
    WithinOne(x, n as real, p, t - p0, Periods(n, p));
    CeilUnique(x, n);
  }

  lemma QuotientTimes(a: real, p: real)
    requires p > 0.0
    ensures a / p * p == a
  {
  }

  lemma LessOne(a: real, p: real)
    ensures (a - 1.0) * p == a * p - p
  {
  }

  lemma Scale(a: real, b: real, p: real)
    requires p > 0.0
    ensures a * p <= b * p ==> a <= b
    ensures a * p < b * p ==> a < b
  {
    if a > b { assert (a - b) * p > 0.0; }
    if a == b { assert a * p == b * p; }
  }

  /** Exact call count: an unblocked, powered child whose plan starts at p0, not before the edge time
      t0 and less than a period after it, under a parent stepped at most a period apart, has been
      called exactly ceil((t - p0) / P) times after the step at t. */
  lemma ExactCallCount(env: Env, cfg: Cfg, st: St, ins: seq<Input>, i: nat, t0: real)
    requires Shape(cfg, st) && i < |cfg.children| && !st.children[i].blocked
    requires Steady(env, cfg, st, ins, i)
    requires Paced(ins, t0, cfg.children[i].period)
    requires t0 <= st.children[i].plan < t0 + cfg.children[i].period
    ensures CallCount(env, cfg, st, ins, i) == Ceil((LastTime(ins, t0) - st.children[i].plan) / cfg.children[i].period)
  {
    PlanKeepsUp(env, cfg, st, ins, i, t0);
    PlanCountsCalls(env, cfg, st, ins, i);
    CeilBetween(LastTime(ins, t0), st.children[i].plan, cfg.children[i].period, CallCount(env, cfg, st, ins, i));
  }

  /** With any step times at all, the k-th call comes strictly after p0 + (k - 1) P. */
  lemma CallsAreNeverEarly(env: Env, cfg: Cfg, st: St, ins: seq<Input>, i: nat)
    requires Shape(cfg, st) && i < |cfg.children| && !st.children[i].blocked
    requires ins != [] && Steady(env, cfg, st, ins, i)
    requires Entered(LogOfLast(env, cfg, st, ins), i, Called)
    ensures CallCount(env, cfg, st, ins, i) >= 1
    ensures ins[|ins| - 1].tick.time >
            st.children[i].plan + Periods(CallCount(env, cfg, st, ins, i) - 1, cfg.children[i].period)
  {
    PlanCountsCalls(env, cfg, st, ins[..|ins| - 1], i);
    LastStep(env, cfg, st, ins, i);
  }

  /** Where p0 comes from: touch on the rising edge sets the plan of the whole subtree to the wall
      clock reading since each block's construction, and notes the time since the last call everywhere. */
  ghost predicate Replanned(cfg: Cfg, a: St, b: St, now: real)
    requires Shape(cfg, a) && Shape(cfg, b)
    decreases cfg
  {
    && b.plan == b.last == now - cfg.birth && b.delta == now - cfg.birth - a.last
    && (forall j | 0 <= j < |cfg.subs| ::
          b.subs[j] == SubSt(now - cfg.subs[j].birth, now - cfg.subs[j].birth - a.subs[j].last, a.subs[j].blocked))
    && forall i | 0 <= i < |cfg.children| :: Replanned(cfg.children[i], a.children[i], b.children[i], now)
  }

  /** The same block but for its times. */
  ghost predicate SameButTimes(cfg: Cfg, a: St, b: St)
    requires Shape(cfg, a) && Shape(cfg, b)
    decreases cfg
  {
    && a.vars == b.vars && a.blocked == b.blocked && a.power == b.power && a.errBlocks == b.errBlocks
    && a.errors == b.errors
    && forall i | 0 <= i < |cfg.children| :: SameButTimes(cfg.children[i], a.children[i], b.children[i])
  }

  lemma {:induction false} TouchReplans(cfg: Cfg, st: St, now: real)
    requires Shape(cfg, st)
    ensures Replanned(cfg, st, Touch(cfg, st, now), now) && SameButTimes(cfg, st, Touch(cfg, st, now))
    decreases cfg
  {
    forall i | 0 <= i < |cfg.children|
      ensures Replanned(cfg.children[i], st.children[i], Touch(cfg, st, now).children[i], now)
      ensures SameButTimes(cfg.children[i], st.children[i], Touch(cfg, st, now).children[i])
    {
      TouchReplans(cfg.children[i], st.children[i], now);
    }
  }

  lemma OnEdgeReplans(env: Env, cfg: Cfg, st: St, tick: Tick, up: Params, n: nat, i: nat)
    requires Shape(cfg, st)
    requires var log := CallLog(env, cfg, st, tick, up).2;
             n < |log| && log[n].ref == Child(i) && log[n].branch == PoweredOn && log[n].out.Ok?
    ensures i < |cfg.children|
    ensures var c := CallLog(env, cfg, st, tick, up).0.children[i];
            c.power && Replanned(cfg.children[i], st.children[i], c, tick.now)
  {
    var st1 := Begin(cfg, st, up).0;
    ScheduleIsStableSort(cfg, st1, tick.time);
    var vals := ChildOutcome(env, cfg, st1, Schedule(cfg, st1, tick.time), tick, up, n, i);
    var cc, c := cfg.children[i], st.children[i];
    var d := WriteEdge(cc, c, cc.on).0;
    TouchReplans(cc, d, tick.now);
    var t := Touch(cc, d, tick.now);
    var f := CallLog(env, cfg, st, tick, up).0.children[i];
    assert f.plan == t.plan && f.last == t.last && f.delta == t.delta && f.children == t.children && f.subs == t.subs;
    assert d.last == c.last && d.children == c.children && d.subs == c.subs;
  }
}
