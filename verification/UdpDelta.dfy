/** Delta transmission, one buffer at a time: what a turn stores and when it sends. */
module UdpDelta {
  import opened Common
  import opened Values
  import opened Checksum
  import opened UdpExchange
  import opened UdpDelivery
  import opened UdpRuns
  import opened UdpMirror

  predicate DiffersAt(n: string, vars: Params, up: Params) {
    n in vars && n in up && vars[n] != up[n]
  }

  /** The variables of a buffer that still differ from the block. */
  function Differs(b: Buffer, vars: Params, up: Params): set<string> {
    set n | n in NamesIn(b.vars) && DiffersAt(n, vars, up)
  }

  /** The first of them in the order of the description. */
  function FirstDiff(ds: seq<VarDesc>, vars: Params, up: Params): Option<string> {
    if ds == [] then None
    else if DiffersAt(ds[0].name, vars, up) then Some(ds[0].name)
    else FirstDiff(ds[1..], vars, up)
  }

  lemma NamesStep(ds: seq<VarDesc>)
    requires ds != []
    ensures NamesIn(ds) == {ds[0].name} + NamesIn(ds[1..])
  {
    forall i | 0 < i < |ds| ensures ds[i] == ds[1..][i - 1] {}
  }

  lemma {:induction false} FirstDiffFinds(ds: seq<VarDesc>, vars: Params, up: Params)
    ensures FirstDiff(ds, vars, up).Some? <==> exists n :: n in NamesIn(ds) && DiffersAt(n, vars, up)
    ensures FirstDiff(ds, vars, up).Some? ==>
              FirstDiff(ds, vars, up).value in NamesIn(ds) && DiffersAt(FirstDiff(ds, vars, up).value, vars, up)
    decreases ds
  {
    if ds != [] {
      NamesStep(ds);
      FirstDiffFinds(ds[1..], vars, up);
    }
  }

  /** Once something has changed, nothing more is copied. */
  lemma {:induction false} FillAfterChange(ds: seq<VarDesc>, f: Fill, up: Params)
    requires (forall d <- ds :: d.offset + d.size <= |f.msg|) && f.changed
    ensures FillVars(ds, f, up).vars == f.vars && FillVars(ds, f, up).changed
    decreases ds
  {
    if ds != [] && f.verdict.Done? {
      var g := FillOne(ds[0], f, up);
      if ds[0].name in f.vars { assert f.vars[ds[0].name := f.vars[ds[0].name]] == f.vars; }
      FillAfterChange(ds[1..], g, up);
    }
  }

  /** The stored values once variable n, if any, has been copied from the block. */
  function Fix(vars: Params, n: Option<string>, up: Params): Params {
    if n.Some? && n.value in up then vars[n.value := up[n.value]] else vars
  }

  /** A served walk copies exactly the first variable that differs. */
  lemma {:induction false} FillFixesFirst(ds: seq<VarDesc>, f: Fill, up: Params)
    requires (forall d <- ds :: d.offset + d.size <= |f.msg|) && f.verdict.Done? && !f.changed
    requires forall i | 0 <= i < |ds| :: ServedVar(ds[i], f.vars, up)
    ensures FillVars(ds, f, up).vars == Fix(f.vars, FirstDiff(ds, f.vars, up), up)
    ensures FillVars(ds, f, up).changed <==> FirstDiff(ds, f.vars, up).Some?
    decreases ds
  {
    if ds != [] {
      var d := ds[0];
      assert ServedVar(d, f.vars, up);
      var g := FillOne(d, f, up);
      if DiffersAt(d.name, f.vars, up) {
        FillAfterChange(ds[1..], g, up);
      } else {
        assert f.vars[d.name := f.vars[d.name]] == f.vars;
        forall i | 0 <= i < |ds[1..]|
          ensures ServedVar(ds[1..][i], g.vars, up) { assert ServedVar(ds[i + 1], f.vars, up); }
        FillFixesFirst(ds[1..], g, up);
      }
    }
  }

  /** One served buffer: it sends exactly when something differs, and the first difference is gone. */
  lemma BufferFixesFirst(layout: Layout, i: nat, s: Sender, up: Params)
    requires LayoutFits(layout) && i < |layout| && Fits(layout[i]) && Served(layout, s.vars, up)
    ensures var b := layout[i];
            var s1 := OutputBuffer(s, b, up).0;
            && s1.vars == Fix(s.vars, FirstDiff(b.vars, s.vars, up), up)
            && (Sends(s, b, up) <==> Differs(b, s.vars, up) != {})
            && |Differs(b, s1.vars, up)| == (if Differs(b, s.vars, up) == {} then 0 else |Differs(b, s.vars, up)| - 1)
  {
    var b := layout[i];
    forall k | 0 <= k < |b.vars| ensures ServedVar(b.vars[k], s.vars, up) {}
    ServedOutput(layout, i, s, up);
    FillFixesFirst(b.vars, Fill(s.vars, Blank(b), false, Done), up);
    FixedIsGone(b, s.vars, up);
    var before, n := Differs(b, s.vars, up), FirstDiff(b.vars, s.vars, up);
    OneLess(before, n);
    assert Differs(b, OutputBuffer(s, b, up).0.vars, up) == if n.Some? then before - {n.value} else {};
  }

  lemma OneLess(names: set<string>, n: Option<string>)
    requires n.Some? ==> n.value in names
    ensures n.Some? ==> |names - {n.value}| == |names| - 1
  {
    if n.Some? { assert names == (names - {n.value}) + {n.value}; }
  }

  lemma FixedElsewhere(b: Buffer, vars: Params, up: Params, x: string)
    requires x in up
    ensures Differs(b, Fix(vars, Some(x), up), up) == Differs(b, vars, up) - {x}
  {
  }

  lemma FixedIsGone(b: Buffer, vars: Params, up: Params)
    ensures var n := FirstDiff(b.vars, vars, up);
            && (n.None? <==> Differs(b, vars, up) == {})
            && Differs(b, Fix(vars, n, up), up) == if n.Some? then Differs(b, vars, up) - {n.value} else {}
    ensures var n := FirstDiff(b.vars, vars, up); n.Some? ==> n.value in Differs(b, vars, up)
  {
    FirstDiffFinds(b.vars, vars, up);
    var n := FirstDiff(b.vars, vars, up);
    if n.None? {
      assert forall k <- NamesIn(b.vars) :: !DiffersAt(k, vars, up);
      assert Differs(b, vars, up) == {};
    } else {
      FixedElsewhere(b, vars, up, n.value);
      assert n.value in Differs(b, vars, up);
    }
  }

  // ----- any buffer, any faults -----

  /** The walk stops at d when it looks d up in vars. */
  predicate Faulty(d: VarDesc, vars: Params, up: Params) {
    d.name !in up || d.name !in vars || |ToBytes(vars[d.name])| != d.size
  }

  /** The walk passes d without a copy. */
  predicate Passed(d: VarDesc, vars: Params, up: Params) {
    !Faulty(d, vars, up) && vars[d.name] == up[d.name]
  }

  /** Variable number i is the one the walk copies: it differs in value but not in type, and the walk
      passes everything before it. */
  ghost predicate CopiedAt(ds: seq<VarDesc>, vars: Params, up: Params, i: nat) {
    && i < |ds| && (forall k | 0 <= k < i :: Passed(ds[k], vars, up))
    && DiffersAt(ds[i].name, vars, up) && TypeOf(vars[ds[i].name]) == TypeOf(up[ds[i].name])
  }

  /** From variable number i on, the walk meets no fault. */
  ghost predicate SoundFrom(ds: seq<VarDesc>, vars: Params, up: Params, i: nat) {
    forall j | i <= j < |ds| :: !Faulty(ds[j], vars, up)
  }

  lemma SoundFromStep(ds: seq<VarDesc>, vars: Params, up: Params)
    requires ds != []
    ensures SoundFrom(ds, vars, up, 0) <==> !Faulty(ds[0], vars, up) && SoundFrom(ds[1..], vars, up, 0)
  {
    if !Faulty(ds[0], vars, up) && SoundFrom(ds[1..], vars, up, 0) {
      forall j | 0 <= j < |ds| ensures !Faulty(ds[j], vars, up) { if j > 0 { assert ds[j] == ds[1..][j - 1]; } }
    }
  }

  /** After a change the walk copies nothing more and ends well exactly when no fault is ahead. */
  lemma {:induction false} FillAfterChangeEnds(ds: seq<VarDesc>, f: Fill, up: Params)
    requires (forall d <- ds :: d.offset + d.size <= |f.msg|) && f.changed && f.verdict.Done?
    ensures var r := FillVars(ds, f, up);
            r.vars == f.vars && r.changed && !r.verdict.Threw? && (r.verdict.Done? <==> SoundFrom(ds, f.vars, up, 0))
    decreases ds
  {
    if ds != [] {
      SoundFromStep(ds, f.vars, up);
      var g := FillOne(ds[0], f, up);
      if ds[0].name in f.vars { assert f.vars[ds[0].name := f.vars[ds[0].name]] == f.vars; }
      if g.verdict.Done? { FillAfterChangeEnds(ds[1..], g, up); }
    }
  }

  lemma CopiedLater(ds: seq<VarDesc>, vars: Params, up: Params, i: nat)
    requires ds != [] && Passed(ds[0], vars, up) && 0 < i
    ensures CopiedAt(ds, vars, up, i) <==> CopiedAt(ds[1..], vars, up, i - 1)
  {
    if CopiedAt(ds[1..], vars, up, i - 1) {
      forall k | 0 <= k < i ensures Passed(ds[k], vars, up) { if k > 0 { assert ds[k] == ds[1..][k - 1]; } }
    }
  }

  /** A walk that copies variable i stores exactly that change, and ends well exactly when no fault is
      met at it or after it. */
  lemma {:induction false} FillCopies(ds: seq<VarDesc>, f: Fill, up: Params, i: nat)
    requires (forall d <- ds :: d.offset + d.size <= |f.msg|) && f.verdict.Done? && !f.changed
    requires CopiedAt(ds, f.vars, up, i)
    ensures var r := FillVars(ds, f, up);
            && r.vars == Fix(f.vars, Some(ds[i].name), up) && r.changed && !r.verdict.Threw?
            && (r.verdict.Done? <==> SoundFrom(ds, r.vars, up, i))
    decreases ds
  {
    if i == 0 {
      var g := FillOne(ds[0], f, up);
      SoundFromStep(ds, g.vars, up);
      if g.verdict.Done? { FillAfterChangeEnds(ds[1..], g, up); }
    } else {
      assert Passed(ds[0], f.vars, up);
      CopiedLater(ds, f.vars, up, i);
      var g := FillOne(ds[0], f, up);
      assert f.vars[ds[0].name := f.vars[ds[0].name]] == f.vars;
      FillCopies(ds[1..], g, up, i - 1);
      var r := FillVars(ds, f, up);
      SoundFromShift(ds, r.vars, up, i);
    }
  }

  lemma SoundFromShift(ds: seq<VarDesc>, vars: Params, up: Params, i: nat)
    requires ds != [] && 0 < i
    ensures SoundFrom(ds, vars, up, i) <==> SoundFrom(ds[1..], vars, up, i - 1)
  {
    if SoundFrom(ds[1..], vars, up, i - 1) {
      forall j | i <= j < |ds| ensures !Faulty(ds[j], vars, up) { assert ds[j] == ds[1..][j - 1]; }
    }
  }

  /** A walk with nothing to copy stores nothing and flags nothing. */
  lemma {:induction false} FillCopiesNothing(ds: seq<VarDesc>, f: Fill, up: Params)
    requires (forall d <- ds :: d.offset + d.size <= |f.msg|) && f.verdict.Done? && !f.changed
    requires forall i: nat :: !CopiedAt(ds, f.vars, up, i)
    ensures FillVars(ds, f, up).vars == f.vars && !FillVars(ds, f, up).changed
    decreases ds
  {
    if ds != [] {
      assert !CopiedAt(ds, f.vars, up, 0);
      var g := FillOne(ds[0], f, up);
      if ds[0].name in f.vars { assert f.vars[ds[0].name := f.vars[ds[0].name]] == f.vars; }
      if g.verdict.Done? {
        forall i: nat ensures !CopiedAt(ds[1..], f.vars, up, i) { CopiedLater(ds, f.vars, up, i + 1); }
        FillCopiesNothing(ds[1..], g, up);
      }
    }
  }

  /** The change the walk would make, if any. */
  ghost predicate Changes(b: Buffer, vars: Params, up: Params) {
    exists i: nat :: CopiedAt(b.vars, vars, up, i)
  }

  /** The walk copies a variable and meets a fault at it or after it. */
  ghost predicate ChangesThenFails(b: Buffer, vars: Params, up: Params) {
    exists i: nat :: CopiedAt(b.vars, vars, up, i) && !SoundFrom(b.vars, Fix(vars, Some(b.vars[i].name), up), up, i)
  }

  lemma CopiedOnce(ds: seq<VarDesc>, vars: Params, up: Params, i: nat, k: nat)
    requires CopiedAt(ds, vars, up, i) && CopiedAt(ds, vars, up, k)
    ensures i == k
  {
  }

  lemma BufferChanges(s: Sender, b: Buffer, up: Params, i: nat)
    requires Fits(b) && CopiedAt(b.vars, s.vars, up, i)
    ensures var s1 := OutputBuffer(s, b, up).0;
            && s1.vars == Fix(s.vars, Some(b.vars[i].name), up) && s1.vars != s.vars
            && (if SoundFrom(b.vars, s1.vars, up, i) then |s1.sent| == |s.sent| + 1
                else s1.sent == s.sent && |s1.faults| == |s.faults| + 1)
  {
    FillCopies(b.vars, Fill(s.vars, Blank(b), false, Done), up, i);
  }

  /** When a change is lost: for any buffer and any faults, the stored values change without a message
      if and only if the walk copies a variable and meets a fault at it or after it. */
  lemma ChangeIsLostIff(s: Sender, b: Buffer, up: Params)
    requires Fits(b)
    ensures var s1 := OutputBuffer(s, b, up).0;
            s1.vars != s.vars && s1.sent == s.sent <==> ChangesThenFails(b, s.vars, up)
  {
    if i: nat :| CopiedAt(b.vars, s.vars, up, i) {
      BufferChanges(s, b, up, i);
      if ChangesThenFails(b, s.vars, up) {
        var k: nat :| CopiedAt(b.vars, s.vars, up, k) &&
          !SoundFrom(b.vars, Fix(s.vars, Some(b.vars[k].name), up), up, k);
        CopiedOnce(b.vars, s.vars, up, i, k);
      }
    } else {
      FillCopiesNothing(b.vars, Fill(s.vars, Blank(b), false, Done), up);
    }
  }

  /** When a message goes out: a variable is copied and no fault follows. */
  lemma SendsIff(s: Sender, b: Buffer, up: Params)
    requires Fits(b)
    ensures Sends(s, b, up) <==> Changes(b, s.vars, up) && !ChangesThenFails(b, s.vars, up)
  {
    ChangeIsLostIff(s, b, up);
    if i: nat :| CopiedAt(b.vars, s.vars, up, i) {
      BufferChanges(s, b, up, i);
    } else {
      FillCopiesNothing(b.vars, Fill(s.vars, Blank(b), false, Done), up);
    }
  }

  /** A buffer that is given up after a copy has lost the change: it is stored but not sent, and no
      longer counts as a difference. */
  lemma FaultLosesChange(s: Sender, b: Buffer, up: Params, c: VarDesc, d: VarDesc)
    requires Fits(b) && b.vars == [c, d] && c.name != d.name
    requires ServedVar(c, s.vars, up) && DiffersAt(c.name, s.vars, up)
    requires d.name in up && d.name in s.vars && |ToBytes(s.vars[d.name])| != d.size
    ensures var s1 := OutputBuffer(s, b, up).0;
            s1.sent == s.sent && !DiffersAt(c.name, s1.vars, up) && s1.faults == s.faults + [WrongVarSize(d.name)]
  {
    var g := FillOne(c, Fill(s.vars, Blank(b), false, Done), up);
    assert b.vars[1..] == [d] && [d][1..] == [];
    assert FillVars([d], g, up) == FillVars([], FillOne(d, g, up), up);
  }

  // ----- faults -----

  /** Why the walk stopped at d. */
  predicate StoppedAt(d: VarDesc, vars: Params, up: Params, v: Verdict) {
    match v
    case Done => false
    case Rejected(fault) =>
      if d.name !in up then fault == NotInBlock(d.name)
      else if d.name !in vars then fault == NotInStore(d.name)
      else
        && fault == WrongVarSize(d.name)
        && (d.size != |ToBytes(vars[d.name])| || d.size != |ToBytes(up[d.name])|)
    case Threw(e) =>
      e == BadCast && d.name in up && d.name in vars && TypeOf(vars[d.name]) != TypeOf(up[d.name])
  }

  /** A walk that does not get through its variables has stopped at one of them for one of these reasons. */
  lemma {:induction false} StopHasReason(ds: seq<VarDesc>, f: Fill, up: Params, vars: Params)
    requires (forall d <- ds :: d.offset + d.size <= |f.msg|) && f.verdict.Done?
    requires f.vars.Keys == vars.Keys
    requires forall n <- vars ::
               f.vars[n] == vars[n] || (n in up && f.vars[n] == up[n] && TypeOf(up[n]) == TypeOf(vars[n]))
    ensures var v := FillVars(ds, f, up).verdict; v.Done? || exists d <- ds :: StoppedAt(d, vars, up, v)
    decreases ds
  {
    if ds != [] {
      var d, g := ds[0], FillOne(ds[0], f, up);
      assert ds == [d] + ds[1..];
      if g.verdict.Done? {
        StopHasReason(ds[1..], g, up, vars);
      } else {
        assert FillVars(ds, f, up) == g by { assert FillVars(ds[1..], g, up) == g; }
        assert d in ds && StoppedAt(d, vars, up, g.verdict);
      }
    }
  }

  /** A turn of a buffer reports at most one fault, and then for one of these reasons; it throws only on a
      variable whose stored type is not that of the block. */
  lemma FaultsHaveReasons(s: Sender, b: Buffer, up: Params)
    requires Fits(b)
    ensures var (s1, o) := OutputBuffer(s, b, up);
            && (s1.faults == s.faults ||
                exists fault: Fault :: s1.faults == s.faults + [fault] &&
                  exists d <- b.vars :: StoppedAt(d, s.vars, up, Rejected(fault)))
            && (o.Throw? ==> exists d <- b.vars :: StoppedAt(d, s.vars, up, Threw(o.exn)))
  {
    hide FillVars;
    StopHasReason(b.vars, Fill(s.vars, Blank(b), false, Done), up, s.vars);
  }
}
