/** Delta transmission over whole runs: with the block's values frozen, how many messages each buffer
    sends, what the last one carries, and when a difference is never sent. */
module UdpConvergence {
  import opened Common
  import opened Values
  import opened Checksum
  import opened UdpExchange
  import opened UdpDelivery
  import opened UdpRuns
  import opened UdpMirror
  import opened UdpDelta

  function Frozen(up: Params, n: nat): (ups: seq<Params>)
    ensures |ups| == n
  {
    seq(n, _ => up)
  }

  lemma FrozenStep(up: Params, n: nat)
    requires n > 0
    ensures Frozen(up, n)[0] == up && Frozen(up, n)[1..] == Frozen(up, n - 1)
  {
  }

  /** No variable is a difference of two buffers. */
  ghost predicate DiffersApart(layout: Layout, vars: Params, up: Params) {
    forall i, k | 0 <= i < |layout| && 0 <= k < |layout| && i != k ::
      Differs(layout[i], vars, up) !! Differs(layout[k], vars, up)
  }

  ghost predicate NamesApart(layout: Layout) {
    forall i, k | 0 <= i < |layout| && 0 <= k < |layout| && i != k :: NamesIn(layout[i].vars) !! NamesIn(layout[k].vars)
  }

  lemma SharedNameIsShared(layout: Layout, i: nat, k: nat, x: string)
    requires i < |layout| && k < |layout| && i != k && x in NamesIn(layout[i].vars) && x in NamesIn(layout[k].vars)
    ensures !DiffersApart(layout, map[x := BoolV(false)], map[x := BoolV(true)])
  {
    var vars, up := map[x := BoolV(false)], map[x := BoolV(true)];
    assert x in Differs(layout[i], vars, up) && x in Differs(layout[k], vars, up);
  }

  /** Differences are apart whatever the values are exactly if no variable is listed in two buffers. */
  lemma NamesApartIff(layout: Layout)
    ensures NamesApart(layout) <==> forall vars: Params, up: Params :: DiffersApart(layout, vars, up)
  {
    if NamesApart(layout) {
      forall vars: Params, up: Params ensures DiffersApart(layout, vars, up) {
        forall i, k | 0 <= i < |layout| && 0 <= k < |layout| && i != k
          ensures Differs(layout[i], vars, up) !! Differs(layout[k], vars, up)
        {
          assert Differs(layout[i], vars, up) <= NamesIn(layout[i].vars);
          assert Differs(layout[k], vars, up) <= NamesIn(layout[k].vars);
        }
      }
    } else {
      var i, k :| 0 <= i < |layout| && 0 <= k < |layout| && i != k &&
        !(NamesIn(layout[i].vars) !! NamesIn(layout[k].vars));
      var x :| x in NamesIn(layout[i].vars) && x in NamesIn(layout[k].vars);
      SharedNameIsShared(layout, i, k, x);
    }
  }

  // ----- one turn, seen from all buffers -----

  /** A served turn of buffer i takes its first difference away everywhere. */
  lemma TurnFixes(layout: Layout, i: nat, s: Sender, up: Params, k: nat)
    requires LayoutFits(layout) && i < |layout| && k < |layout| && Fits(layout[i]) && Served(layout, s.vars, up)
    ensures var n := FirstDiff(layout[i].vars, s.vars, up);
            && (n.Some? <==> Differs(layout[i], s.vars, up) != {}) && (n.Some? <==> Sends(s, layout[i], up))
            && (n.Some? ==> n.value in Differs(layout[i], s.vars, up) && n.value in up)
            && Differs(layout[k], OutputBuffer(s, layout[i], up).0.vars, up) ==
               Differs(layout[k], s.vars, up) - (if n.Some? then {n.value} else {})
  {
    var n := FirstDiff(layout[i].vars, s.vars, up);
    BufferFixesFirst(layout, i, s, up);
    FixedIsGone(layout[i], s.vars, up);
    if n.Some? { FixedElsewhere(layout[k], s.vars, up, n.value); }
  }

  lemma TurnKeepsApart(layout: Layout, i: nat, s: Sender, up: Params)
    requires LayoutFits(layout) && i < |layout| && Fits(layout[i]) && Served(layout, s.vars, up)
    requires DiffersApart(layout, s.vars, up)
    ensures DiffersApart(layout, OutputBuffer(s, layout[i], up).0.vars, up)
  {
    hide OutputBuffer, Differs, FirstDiff;
    var s1 := OutputBuffer(s, layout[i], up).0;
    forall j, k | 0 <= j < |layout| && 0 <= k < |layout| && j != k
      ensures Differs(layout[j], s1.vars, up) !! Differs(layout[k], s1.vars, up)
    {
      TurnFixes(layout, i, s, up, j);
      TurnFixes(layout, i, s, up, k);
      assert Differs(layout[j], s.vars, up) !! Differs(layout[k], s.vars, up);
    }
  }

  /** A turn of buffer i leaves the differences of another buffer alone when they are apart. */
  lemma OtherDiffersStay(layout: Layout, i: nat, j: nat, s: Sender, up: Params)
    requires LayoutFits(layout) && i < |layout| && j < |layout| && i != j && Fits(layout[i]) &&
             Served(layout, s.vars, up)
    requires DiffersApart(layout, s.vars, up)
    ensures Differs(layout[j], OutputBuffer(s, layout[i], up).0.vars, up) == Differs(layout[j], s.vars, up)
  {
    hide OutputBuffer, Differs, FirstDiff;
    TurnFixes(layout, i, s, up, j);
    assert Differs(layout[i], s.vars, up) !! Differs(layout[j], s.vars, up);
  }

  // ----- messages of one buffer -----

  /** Messages under a given id. */
  function CountId(ms: seq<Message>, id: int): nat {
    if ms == [] then 0 else CountId(ms[..|ms| - 1], id) + if |ms[|ms| - 1]| > 0 && ms[|ms| - 1][0] == id then 1 else 0
  }

  /** The last message under a given id. */
  function LastWith(ms: seq<Message>, id: int): Option<Message> {
    if ms == [] then None
    else if |ms[|ms| - 1]| > 0 && ms[|ms| - 1][0] == id then Some(ms[|ms| - 1])
    else LastWith(ms[..|ms| - 1], id)
  }

  lemma OneMore(ms: seq<Message>, m: Message, id: int)
    ensures CountId(ms + [m], id) == CountId(ms, id) + if |m| > 0 && m[0] == id then 1 else 0
    ensures LastWith(ms + [m], id) == if |m| > 0 && m[0] == id then Some(m) else LastWith(ms, id)
  {
    assert (ms + [m])[..|ms|] == ms;
  }

  /** A turn of a buffer adds at most one message under its id and none under another. */
  lemma TurnCounts(s: Sender, b: Buffer, up: Params, id: int)
    requires Sound(b)
    ensures var s1 := OutputBuffer(s, b, up).0;
            && CountId(s1.sent, id) == CountId(s.sent, id) + (if Sends(s, b, up) && b.id == id then 1 else 0)
            && (b.id != id || !Sends(s, b, up) ==> LastWith(s1.sent, id) == LastWith(s.sent, id))
  {
    hide OutputBuffer, SumOf, Readable;
    if Sends(s, b, up) {
      var m := SentMessage(s, b, up);
      OneMore(s.sent, m, id);
    } else {
      SilentKeepsCounter(b, s, up);
    }
  }

  // ----- how many messages -----

  /** How far buffer b got between two states: k differences fewer, k messages more. */
  ghost predicate Progress(b: Buffer, s: Sender, s1: Sender, up: Params, k: nat) {
    && |Differs(b, s.vars, up)| == |Differs(b, s1.vars, up)| + k
    && CountId(s1.sent, b.id) == CountId(s.sent, b.id) + k
  }

  function One(b: Buffer, s: Sender, up: Params): nat {
    if Differs(b, s.vars, up) == {} then 0 else 1
  }

  lemma OwnBufferProgress(layout: Layout, j: nat, s: Sender, up: Params)
    requires LayoutFits(layout) && j < |layout| && Sound(layout[j]) && Served(layout, s.vars, up)
    ensures Progress(layout[j], s, OutputBuffer(s, layout[j], up).0, up, One(layout[j], s, up))
  {
    hide OutputBuffer, Differs, CountId;
    BufferFixesFirst(layout, j, s, up);
    TurnCounts(s, layout[j], up, layout[j].id);
  }

  lemma OtherBufferProgress(layout: Layout, i: nat, j: nat, s: Sender, up: Params)
    requires LayoutFits(layout) && DiffersApart(layout, s.vars, up) && i < |layout| && j < |layout| && i != j
    requires Sound(layout[i]) && Served(layout, s.vars, up) && layout[i].id != layout[j].id
    ensures Progress(layout[j], s, OutputBuffer(s, layout[i], up).0, up, 0)
    ensures Differs(layout[j], OutputBuffer(s, layout[i], up).0.vars, up) == Differs(layout[j], s.vars, up)
  {
    hide OutputBuffer, Differs, CountId;
    OtherDiffersStay(layout, i, j, s, up);
    TurnCounts(s, layout[i], up, layout[j].id);
  }

  /** One call, from buffer i on: buffer j sends once if it is still to come and differs. */
  lemma {:induction false} OutputProgress(layout: Layout, i: nat, j: nat, s: Sender, up: Params)
    requires WellFormed(layout) && DiffersApart(layout, s.vars, up) && i <= |layout| && j < |layout|
    requires Served(layout, s.vars, up)
    ensures LayoutFits(layout[i..])
    ensures var (s1, o) := Output(s, layout[i..], up);
            && o.Ok? && DiffersApart(layout, s1.vars, up)
            && Progress(layout[j], s, s1, up, if i <= j then One(layout[j], s, up) else 0)
    decreases |layout| - i
  {
    hide OutputBuffer, Differs, CountId;
    if i < |layout| {
      assert layout[i..][1..] == layout[i + 1..] && Sound(layout[i]);
      var s1 := OutputBuffer(s, layout[i], up).0;
      ServedOutput(layout, i, s, up);
      ServedNext(layout, i, s, up, up);
      TurnKeepsApart(layout, i, s, up);
      if i == j { OwnBufferProgress(layout, j, s, up); } else { OtherBufferProgress(layout, i, j, s, up); }
      OutputProgress(layout, i + 1, j, s1, up);
    }
  }

  /** One whole call. */
  lemma CallProgress(layout: Layout, j: nat, s: Sender, up: Params)
    requires WellFormed(layout) && DiffersApart(layout, s.vars, up) && j < |layout| && Served(layout, s.vars, up)
    ensures var (s1, o) := Output(s, layout, up);
            && o.Ok? && DiffersApart(layout, s1.vars, up) && Served(layout, s1.vars, up)
            && Progress(layout[j], s, s1, up, One(layout[j], s, up))
  {
    assert layout[0..] == layout;
    OutputProgress(layout, 0, j, s, up);
    DistinctIdsAreFound(layout);
    OutputServed(layout, 0, s, up, up);
  }

  function Min(a: nat, b: nat): nat {
    if a < b then a else b
  }

  lemma ProgressTrans(b: Buffer, s: Sender, s1: Sender, s2: Sender, up: Params, n: nat)
    requires n > 0 && Progress(b, s, s1, up, One(b, s, up)) &&
             Progress(b, s1, s2, up, Min(n - 1, |Differs(b, s1.vars, up)|))
    ensures Progress(b, s, s2, up, Min(n, |Differs(b, s.vars, up)|))
  {
  }

  /** Delta convergence: with the block's values frozen and no difference shared, n calls make each
      buffer send exactly as many messages as it had differences, up to n, and remove as many. */
  lemma {:induction false} DeltaConvergence(layout: Layout, j: nat, s: Sender, up: Params, n: nat)
    requires WellFormed(layout) && DiffersApart(layout, s.vars, up) && j < |layout| && Served(layout, s.vars, up)
    ensures var (s1, o) := Outputs(s, layout, Frozen(up, n));
            && o.Ok? && DiffersApart(layout, s1.vars, up) && Served(layout, s1.vars, up)
            && Progress(layout[j], s, s1, up, Min(n, |Differs(layout[j], s.vars, up)|))
    decreases n
  {
    if n > 0 {
      CallProgress(layout, j, s, up);
      FrozenStep(up, n);
      var s1 := Output(s, layout, up).0;
      DeltaConvergence(layout, j, s1, up, n - 1);
      ProgressTrans(layout[j], s, s1, Outputs(s1, layout, Frozen(up, n - 1)).0, up, n);
    }
  }

  // ----- what the last message carries -----

  /** The last message of the buffer reads as the current values of the block. */
  ghost predicate Current(b: Buffer, s: Sender, up: Params) {
    var m := LastWith(s.sent, b.id);
    m.Some? && forall k | 0 <= k < |b.vars| :: Readable(b.vars[k], m.value, up, up)
  }

  lemma EqualIsReadable(d: VarDesc, m: Message, vars: Params, up: Params)
    requires Readable(d, m, vars, vars) && d.name in vars && d.name in up && vars[d.name] == up[d.name]
    ensures Readable(d, m, up, up)
  {
  }

  lemma NoDifference(b: Buffer, k: nat, vars: Params, up: Params)
    requires k < |b.vars| && ServedVar(b.vars[k], vars, up) && Differs(b, vars, up) == {}
    ensures var n := b.vars[k].name; n in vars && n in up && vars[n] == up[n]
  {
    assert b.vars[k].name !in Differs(b, vars, up);
  }

  lemma LastTurnCarriesAll(layout: Layout, j: nat, s: Sender, up: Params)
    requires LayoutFits(layout) && j < |layout| && Sound(layout[j]) && Served(layout, s.vars, up)
    requires |Differs(layout[j], s.vars, up)| == 1
    ensures Current(layout[j], OutputBuffer(s, layout[j], up).0, up)
  {
    hide OutputBuffer, Readable, Differs, SumOf, LastWith, CountId, ServedVar;
    var b := layout[j];
    var s1 := OutputBuffer(s, b, up).0;
    BufferFixesFirst(layout, j, s, up);
    assert Differs(b, s.vars, up) != {};
    var m := SentMessage(s, b, up);
    OneMore(s.sent, m, b.id);
    ServedNext(layout, j, s, up, up);
    assert Differs(b, s1.vars, up) == {};
    forall k | 0 <= k < |b.vars| ensures Readable(b.vars[k], m, up, up) {
      assert Readable(b.vars[k], m, s1.vars, s1.vars) && ServedVar(b.vars[k], s1.vars, up);
      NoDifference(b, k, s1.vars, up);
      EqualIsReadable(b.vars[k], m, s1.vars, up);
    }
  }

  lemma QuietKeepsCurrent(layout: Layout, i: nat, j: nat, s: Sender, up: Params)
    requires LayoutFits(layout) && i < |layout| && j < |layout| && Sound(layout[i]) && Served(layout, s.vars, up)
    requires layout[i].id != layout[j].id || Differs(layout[i], s.vars, up) == {}
    ensures Current(layout[j], s, up) ==> Current(layout[j], OutputBuffer(s, layout[i], up).0, up)
  {
    hide OutputBuffer, Differs, LastWith, Readable;
    BufferFixesFirst(layout, i, s, up);
    TurnCounts(s, layout[i], up, layout[j].id);
  }

  /** One call, from buffer i on, when buffer j has its last difference, or none and is current. */
  lemma {:induction false} OutputCurrent(layout: Layout, i: nat, j: nat, s: Sender, up: Params)
    requires WellFormed(layout) && DiffersApart(layout, s.vars, up) && i <= |layout| && j < |layout|
    requires Served(layout, s.vars, up)
    requires if Differs(layout[j], s.vars, up) == {} then Current(layout[j], s, up)
             else i <= j && |Differs(layout[j], s.vars, up)| == 1
    ensures LayoutFits(layout[i..]) && Current(layout[j], Output(s, layout[i..], up).0, up)
    decreases |layout| - i
  {
    hide OutputBuffer, Differs, Current;
    if i < |layout| {
      assert layout[i..][1..] == layout[i + 1..] && Sound(layout[i]);
      var s1 := OutputBuffer(s, layout[i], up).0;
      ServedOutput(layout, i, s, up);
      ServedNext(layout, i, s, up, up);
      TurnKeepsApart(layout, i, s, up);
      if i == j && Differs(layout[j], s.vars, up) != {} {
        LastTurnCarriesAll(layout, j, s, up);
        BufferFixesFirst(layout, j, s, up);
      } else {
        QuietKeepsCurrent(layout, i, j, s, up);
        if i == j { BufferFixesFirst(layout, j, s, up); } else { OtherDiffersStay(layout, i, j, s, up); }
      }
      OutputCurrent(layout, i + 1, j, s1, up);
    }
  }

  /** After a frozen run that is long enough, the last message of each buffer that had differences, in
      everything sent, carries every current value of the block. */
  lemma {:induction false} LastMessageCarriesAll(layout: Layout, j: nat, s: Sender, up: Params, n: nat)
    requires WellFormed(layout) && DiffersApart(layout, s.vars, up) && j < |layout| && Served(layout, s.vars, up)
    requires |Differs(layout[j], s.vars, up)| <= n
    requires Differs(layout[j], s.vars, up) != {} || Current(layout[j], s, up)
    ensures Current(layout[j], Outputs(s, layout, Frozen(up, n)).0, up)
    decreases n
  {
    hide Differs, Current;
    if n > 0 {
      CallProgress(layout, j, s, up);
      FrozenStep(up, n);
      assert layout[0..] == layout;
      if |Differs(layout[j], s.vars, up)| <= 1 { OutputCurrent(layout, 0, j, s, up); }
      LastMessageCarriesAll(layout, j, Output(s, layout, up).0, up, n - 1);
    }
  }

  // ----- exactly when every difference is sent -----

  /** The differences of all buffers together. */
  function AllDiffers(layout: Layout, vars: Params, up: Params): set<string> {
    if layout == [] then {} else Differs(layout[0], vars, up) + AllDiffers(layout[1..], vars, up)
  }

  function SumDiffers(layout: Layout, vars: Params, up: Params): nat {
    if layout == [] then 0 else |Differs(layout[0], vars, up)| + SumDiffers(layout[1..], vars, up)
  }

  lemma {:induction false} AllDiffersIn(layout: Layout, vars: Params, up: Params, n: string)
    ensures n in AllDiffers(layout, vars, up) <==> exists i :: 0 <= i < |layout| && n in Differs(layout[i], vars, up)
    decreases layout
  {
    hide Differs;
    if layout != [] {
      AllDiffersIn(layout[1..], vars, up, n);
      if n in AllDiffers(layout[1..], vars, up) {
        var i :| 0 <= i < |layout[1..]| && n in Differs(layout[1..][i], vars, up);
        assert layout[i + 1] == layout[1..][i];
      } else if i :| 0 <= i < |layout| && n in Differs(layout[i], vars, up) {
        if i > 0 { assert layout[1..][i - 1] == layout[i]; }
      }
    }
  }

  /** Each message takes one variable out of the differences of all. */
  lemma TurnTotal(layout: Layout, i: nat, s: Sender, up: Params)
    requires LayoutFits(layout) && i < |layout| && Sound(layout[i]) && Served(layout, s.vars, up)
    ensures var s1 := OutputBuffer(s, layout[i], up).0;
            |s1.sent| + |AllDiffers(layout, s1.vars, up)| == |s.sent| + |AllDiffers(layout, s.vars, up)|
  {
    hide OutputBuffer, Differs, FirstDiff, AllDiffers;
    var s1, n := OutputBuffer(s, layout[i], up).0, FirstDiff(layout[i].vars, s.vars, up);
    TurnFixes(layout, i, s, up, i);
    var before, after := AllDiffers(layout, s.vars, up), AllDiffers(layout, s1.vars, up);
    var gone := if n.Some? then {n.value} else {};
    forall x ensures x in after <==> x in before - gone {
      TurnAll(layout, i, s, up, x);
    }
    assert after == before - gone;
    AllDiffersIn(layout, s.vars, up, if n.Some? then n.value else "");
    OneLess(before, n);
    if n.Some? {
      var m := SentMessage(s, layout[i], up);
    } else {
      SilentKeepsCounter(layout[i], s, up);
    }
  }

  lemma TurnAll(layout: Layout, i: nat, s: Sender, up: Params, x: string)
    requires LayoutFits(layout) && i < |layout| && Fits(layout[i]) && Served(layout, s.vars, up)
    ensures var n := FirstDiff(layout[i].vars, s.vars, up);
            x in AllDiffers(layout, OutputBuffer(s, layout[i], up).0.vars, up) <==>
            x in AllDiffers(layout, s.vars, up) && n != Some(x)
  {
    hide OutputBuffer, Differs, FirstDiff, AllDiffers;
    var s1 := OutputBuffer(s, layout[i], up).0;
    AllDiffersIn(layout, s.vars, up, x);
    AllDiffersIn(layout, s1.vars, up, x);
    forall k | 0 <= k < |layout|
      ensures x in Differs(layout[k], s1.vars, up) <==>
              x in Differs(layout[k], s.vars, up) && FirstDiff(layout[i].vars, s.vars, up) != Some(x)
    {
      TurnFixes(layout, i, s, up, k);
    }
  }

  lemma {:induction false} OutputTotal(layout: Layout, i: nat, s: Sender, up: Params)
    requires WellFormed(layout) && i <= |layout| && Served(layout, s.vars, up)
    ensures LayoutFits(layout[i..])
    ensures var (s1, o) := Output(s, layout[i..], up);
            && o.Ok? && Served(layout, s1.vars, up) && s.sent <= s1.sent
            && |s1.sent| + |AllDiffers(layout, s1.vars, up)| == |s.sent| + |AllDiffers(layout, s.vars, up)|
    decreases |layout| - i
  {
    hide OutputBuffer, AllDiffers;
    if i < |layout| {
      assert layout[i..][1..] == layout[i + 1..] && Sound(layout[i]);
      ServedOutput(layout, i, s, up);
      ServedNext(layout, i, s, up, up);
      TurnTotal(layout, i, s, up);
      TurnExtends(layout[i], s, up);
      OutputTotal(layout, i + 1, OutputBuffer(s, layout[i], up).0, up);
    }
  }

  lemma TurnExtends(b: Buffer, s: Sender, up: Params)
    requires Sound(b)
    ensures s.sent <= OutputBuffer(s, b, up).0.sent
  {
    hide OutputBuffer, SumOf, Readable;
    if Sends(s, b, up) {
      var m := SentMessage(s, b, up);
    } else {
      SilentKeepsCounter(b, s, up);
    }
  }

  /** A frozen run of any length sends at most one message for each differing variable, however many
      buffers list it. */
  lemma {:induction false} RunTotal(layout: Layout, s: Sender, up: Params, n: nat)
    requires WellFormed(layout) && Served(layout, s.vars, up)
    ensures var (s1, o) := Outputs(s, layout, Frozen(up, n));
            && o.Ok? && Served(layout, s1.vars, up) && s.sent <= s1.sent
            && |s1.sent| + |AllDiffers(layout, s1.vars, up)| == |s.sent| + |AllDiffers(layout, s.vars, up)|
    decreases n
  {
    hide AllDiffers;
    if n > 0 {
      FrozenStep(up, n);
      assert layout[0..] == layout;
      OutputTotal(layout, 0, s, up);
      RunTotal(layout, Output(s, layout, up).0, up, n - 1);
    }
  }

  /** The messages of all buffers of the layout. */
  function Tally(layout: Layout, ms: seq<Message>): nat {
    if layout == [] then 0 else CountId(ms, layout[0].id) + Tally(layout[1..], ms)
  }

  lemma {:induction false} TallySnoc(layout: Layout, ms: seq<Message>, m: Message)
    requires DistinctIds(layout)
    ensures Tally(layout, ms + [m]) <= Tally(layout, ms) + 1
    ensures (forall i | 0 <= i < |layout| :: |m| == 0 || m[0] != layout[i].id) ==>
            Tally(layout, ms + [m]) == Tally(layout, ms)
    decreases layout
  {
    hide CountId;
    if layout != [] {
      OneMore(ms, m, layout[0].id);
      TallySnoc(layout[1..], ms, m);
      forall i | 0 <= i < |layout[1..]| ensures layout[1..][i] == layout[i + 1] {}
    }
  }

  /** Every further message counts for at most one buffer. */
  lemma {:induction false} TallyGrows(layout: Layout, ms: seq<Message>, more: seq<Message>)
    requires DistinctIds(layout)
    ensures Tally(layout, ms + more) <= Tally(layout, ms) + |more|
    decreases |more|
  {
    hide Tally;
    if more == [] {
      assert ms + more == ms;
    } else {
      var init, last := more[..|more| - 1], more[|more| - 1];
      assert ms + more == (ms + init) + [last];
      TallyGrows(layout, ms, init);
      TallySnoc(layout, ms + init, last);
    }
  }

  /** Sets that together are as large as their sizes added up share nothing. */
  lemma {:induction false} FullSumIsApart(layout: Layout, vars: Params, up: Params)
    ensures |AllDiffers(layout, vars, up)| <= SumDiffers(layout, vars, up)
    ensures |AllDiffers(layout, vars, up)| == SumDiffers(layout, vars, up) ==> DiffersApart(layout, vars, up)
    decreases layout
  {
    hide Differs;
    if layout != [] {
      var a, b, rest := Differs(layout[0], vars, up), AllDiffers(layout[1..], vars, up), layout[1..];
      FullSumIsApart(rest, vars, up);
      UnionSize(a, b);
      if |a + b| == SumDiffers(layout, vars, up) {
        forall i, k | 0 <= i < |layout| && 0 <= k < |layout| && i != k
          ensures Differs(layout[i], vars, up) !! Differs(layout[k], vars, up)
        {
          HeadOrRest(layout, vars, up, i, k);
        }
      }
    }
  }

  lemma UnionSize<T>(a: set<T>, b: set<T>)
    ensures |a + b| <= |a| + |b|
    ensures |a + b| == |a| + |b| ==> a !! b
  {
    assert a + b == a + (b - a) && b == (b - a) + (a * b);
    assert |b| == |b - a| + |a * b|;
  }

  lemma HeadOrRest(layout: Layout, vars: Params, up: Params, i: nat, k: nat)
    requires layout != [] && DiffersApart(layout[1..], vars, up)
    requires Differs(layout[0], vars, up) !! AllDiffers(layout[1..], vars, up)
    requires i < |layout| && k < |layout| && i != k
    ensures Differs(layout[i], vars, up) !! Differs(layout[k], vars, up)
  {
    hide Differs;
    var l := if i == 0 then k else i;
    if i == 0 || k == 0 {
      assert layout[1..][l - 1] == layout[l];
      forall n | n in Differs(layout[l], vars, up) ensures n in AllDiffers(layout[1..], vars, up) {
        AllDiffersIn(layout[1..], vars, up, n);
      }
    } else {
      assert layout[1..][i - 1] == layout[i] && layout[1..][k - 1] == layout[k];
    }
  }

  lemma {:induction false} TallyIsSum(layout: Layout, s: Sender, s1: Sender, up: Params)
    requires forall j | 0 <= j < |layout| ::
               CountId(s1.sent, layout[j].id) == CountId(s.sent, layout[j].id) + |Differs(layout[j], s.vars, up)|
    ensures Tally(layout, s1.sent) == Tally(layout, s.sent) + SumDiffers(layout, s.vars, up)
    decreases layout
  {
    hide CountId, Differs;
    if layout != [] {
      forall j | 0 <= j < |layout[1..]| ensures layout[1..][j] == layout[j + 1] {}
      TallyIsSum(layout[1..], s, s1, up);
    }
  }

  /** Every buffer has sent one message for each of its differences. */
  ghost predicate AllSent(layout: Layout, s: Sender, s1: Sender, up: Params) {
    forall j | 0 <= j < |layout| ::
      CountId(s1.sent, layout[j].id) == CountId(s.sent, layout[j].id) + |Differs(layout[j], s.vars, up)|
  }

  /** If every buffer sends for every difference, no difference is shared: there are not messages
      enough. */
  lemma SentMeansApart(layout: Layout, s: Sender, up: Params, n: nat)
    requires WellFormed(layout) && Served(layout, s.vars, up)
    requires AllSent(layout, s, Outputs(s, layout, Frozen(up, n)).0, up)
    ensures DiffersApart(layout, s.vars, up)
  {
    hide CountId, Differs, AllDiffers, Tally, SumDiffers;
    var s1 := Outputs(s, layout, Frozen(up, n)).0;
    RunTotal(layout, s, up, n);
    TallyIsSum(layout, s, s1, up);
    TallyGrows(layout, s.sent, s1.sent[|s.sent|..]);
    assert s1.sent == s.sent + s1.sent[|s.sent|..];
    FullSumIsApart(layout, s.vars, up);
  }

  /** Exactly when delta transmission converges: in a frozen run that is long enough every buffer sends
      one message for each of its differences if and only if no difference is shared at its start. */
  lemma ConvergesIff(layout: Layout, s: Sender, up: Params, n: nat)
    requires WellFormed(layout) && Served(layout, s.vars, up)
    requires forall j | 0 <= j < |layout| :: |Differs(layout[j], s.vars, up)| <= n
    ensures AllSent(layout, s, Outputs(s, layout, Frozen(up, n)).0, up) <==> DiffersApart(layout, s.vars, up)
  {
    hide CountId, Differs;
    if DiffersApart(layout, s.vars, up) {
      var s1 := Outputs(s, layout, Frozen(up, n)).0;
      forall j | 0 <= j < |layout|
        ensures CountId(s1.sent, layout[j].id) == CountId(s.sent, layout[j].id) + |Differs(layout[j], s.vars, up)|
      {
        DeltaConvergence(layout, j, s, up, n);
      }
    } else if AllSent(layout, s, Outputs(s, layout, Frozen(up, n)).0, up) {
      SentMeansApart(layout, s, up, n);
    }
  }

  // ----- the end of a frozen run -----

  /** A run in two parts. */
  lemma {:induction false} FrozenSplit(layout: Layout, s: Sender, up: Params, n: nat, m: nat)
    requires WellFormed(layout) && Served(layout, s.vars, up)
    ensures Outputs(s, layout, Frozen(up, n + m)) == Outputs(Outputs(s, layout, Frozen(up, n)).0, layout, Frozen(up, m))
    decreases n
  {
    if n > 0 {
      FrozenStep(up, n);
      FrozenStep(up, n + m);
      assert layout[0..] == layout;
      OutputTotal(layout, 0, s, up);
      FrozenSplit(layout, Output(s, layout, up).0, up, n - 1, m);
    }
  }

  /** A call takes something away while anything differs. */
  lemma {:induction false} OutputShrinks(layout: Layout, i: nat, s: Sender, up: Params, k: nat)
    requires WellFormed(layout) && i <= k < |layout| && Served(layout, s.vars, up)
    requires Differs(layout[k], s.vars, up) != {}
    ensures LayoutFits(layout[i..])
    ensures |AllDiffers(layout, Output(s, layout[i..], up).0.vars, up)| < |AllDiffers(layout, s.vars, up)|
    decreases |layout| - i
  {
    hide OutputBuffer, Differs, AllDiffers;
    assert layout[i..][1..] == layout[i + 1..] && Sound(layout[i]);
    var s1 := OutputBuffer(s, layout[i], up).0;
    ServedOutput(layout, i, s, up);
    ServedNext(layout, i, s, up, up);
    TurnTotal(layout, i, s, up);
    if Differs(layout[i], s.vars, up) != {} {
      BufferFixesFirst(layout, i, s, up);
      var m := SentMessage(s, layout[i], up);
      OutputTotal(layout, i + 1, s1, up);
    } else {
      TurnFixes(layout, i, s, up, k);
      TurnExtends(layout[i], s, up);
      OutputShrinks(layout, i + 1, s1, up, k);
    }
  }

  /** After as many calls as there are differences, none is left, whatever is shared. */
  lemma {:induction false} RunEmpties(layout: Layout, s: Sender, up: Params, n: nat)
    requires WellFormed(layout) && Served(layout, s.vars, up) && |AllDiffers(layout, s.vars, up)| <= n
    ensures AllDiffers(layout, Outputs(s, layout, Frozen(up, n)).0.vars, up) == {}
    decreases n
  {
    hide AllDiffers, Differs, Served, Sound, LayoutFits, DistinctIds, Output;
    if AllDiffers(layout, s.vars, up) == {} {
      RunTotal(layout, s, up, n);
    } else {
      var x :| x in AllDiffers(layout, s.vars, up);
      AllDiffersIn(layout, s.vars, up, x);
      var k :| 0 <= k < |layout| && x in Differs(layout[k], s.vars, up);
      assert layout[0..] == layout;
      OutputShrinks(layout, 0, s, up, k);
      OutputTotal(layout, 0, s, up);
      FrozenStep(up, n);
      assert Frozen(up, n) != [];
      RunEmpties(layout, Output(s, layout, up).0, up, n - 1);
    }
  }

  /** Messages of a buffer only come in exchange for its differences. */
  ghost predicate NotAhead(b: Buffer, s: Sender, s1: Sender, up: Params) {
    && CountId(s.sent, b.id) <= CountId(s1.sent, b.id)
    && CountId(s1.sent, b.id) + |Differs(b, s1.vars, up)| <= CountId(s.sent, b.id) + |Differs(b, s.vars, up)|
  }

  lemma TurnNotAhead(layout: Layout, i: nat, j: nat, s: Sender, up: Params)
    requires WellFormed(layout) && i < |layout| && j < |layout| && Served(layout, s.vars, up)
    ensures NotAhead(layout[j], s, OutputBuffer(s, layout[i], up).0, up)
  {
    hide OutputBuffer, Differs, CountId;
    assert Sound(layout[i]) && Sound(layout[j]);
    if i == j {
      OwnBufferProgress(layout, j, s, up);
    } else {
      TurnFixes(layout, i, s, up, j);
      TurnCounts(s, layout[i], up, layout[j].id);
      var n, before := FirstDiff(layout[i].vars, s.vars, up), Differs(layout[j], s.vars, up);
      if n.Some? && n.value in before { OneLess(before, n); }
      if n.Some? && n.value !in before { assert before - {n.value} == before; }
    }
  }

  lemma {:induction false} OutputNotAhead(layout: Layout, i: nat, j: nat, s: Sender, up: Params)
    requires WellFormed(layout) && i <= |layout| && j < |layout| && Served(layout, s.vars, up)
    ensures LayoutFits(layout[i..]) && NotAhead(layout[j], s, Output(s, layout[i..], up).0, up)
    decreases |layout| - i
  {
    hide OutputBuffer, Differs, CountId;
    if i < |layout| {
      assert layout[i..][1..] == layout[i + 1..] && Sound(layout[i]);
      ServedOutput(layout, i, s, up);
      ServedNext(layout, i, s, up, up);
      TurnNotAhead(layout, i, j, s, up);
      OutputNotAhead(layout, i + 1, j, OutputBuffer(s, layout[i], up).0, up);
    }
  }

  lemma {:induction false} RunNotAhead(layout: Layout, j: nat, s: Sender, up: Params, n: nat)
    requires WellFormed(layout) && j < |layout| && Served(layout, s.vars, up)
    ensures NotAhead(layout[j], s, Outputs(s, layout, Frozen(up, n)).0, up)
    decreases n
  {
    hide Differs, CountId;
    if n > 0 {
      FrozenStep(up, n);
      assert layout[0..] == layout;
      OutputNotAhead(layout, 0, j, s, up);
      OutputTotal(layout, 0, s, up);
      RunNotAhead(layout, j, Output(s, layout, up).0, up, n - 1);
    }
  }

  /** Once nothing differs, nothing more is sent. */
  lemma RunIsOver(layout: Layout, s: Sender, up: Params, n: nat)
    requires WellFormed(layout) && Served(layout, s.vars, up) && AllDiffers(layout, s.vars, up) == {}
    ensures Outputs(s, layout, Frozen(up, n)).0.sent == s.sent
  {
    RunTotal(layout, s, up, n);
  }

  /** Messages of a buffer after n calls are at most those after as many calls as there are differences. */
  lemma CountSettles(layout: Layout, j: nat, s: Sender, up: Params, n: nat)
    requires WellFormed(layout) && j < |layout| && Served(layout, s.vars, up)
    ensures var last := |AllDiffers(layout, s.vars, up)|;
            CountId(Outputs(s, layout, Frozen(up, n)).0.sent, layout[j].id) <=
            CountId(Outputs(s, layout, Frozen(up, last)).0.sent, layout[j].id)
  {
    hide AllDiffers, CountId, Differs, Outputs, Served, Sound, LayoutFits, DistinctIds, Frozen;
    var last := |AllDiffers(layout, s.vars, up)|;
    if n <= last {
      RunTotal(layout, s, up, n);
      FrozenSplit(layout, s, up, n, last - n);
      RunNotAhead(layout, j, Outputs(s, layout, Frozen(up, n)).0, up, last - n);
    } else {
      RunTotal(layout, s, up, last);
      RunEmpties(layout, s, up, last);
      FrozenSplit(layout, s, up, last, n - last);
      RunIsOver(layout, Outputs(s, layout, Frozen(up, last)).0, up, n - last);
    }
  }

  /** So with a shared difference there is a buffer that stays behind for ever: it never sends as many
      messages as it had differences. */
  lemma SharedDifferenceStaysBehind(layout: Layout, s: Sender, up: Params) returns (j: nat)
    requires WellFormed(layout) && Served(layout, s.vars, up) && !DiffersApart(layout, s.vars, up)
    ensures j < |layout|
    ensures forall n: nat :: CountId(Outputs(s, layout, Frozen(up, n)).0.sent, layout[j].id) <
              CountId(s.sent, layout[j].id) + |Differs(layout[j], s.vars, up)|
  {
    hide AllDiffers, CountId, Differs, Outputs;
    var last := |AllDiffers(layout, s.vars, up)|;
    var s1 := Outputs(s, layout, Frozen(up, last)).0;
    if AllSent(layout, s, s1, up) { SentMeansApart(layout, s, up, last); }
    j :| 0 <= j < |layout| &&
      CountId(s1.sent, layout[j].id) != CountId(s.sent, layout[j].id) + |Differs(layout[j], s.vars, up)|;
    RunNotAhead(layout, j, s, up, last);
    forall n: nat
      ensures CountId(Outputs(s, layout, Frozen(up, n)).0.sent, layout[j].id) <
              CountId(s.sent, layout[j].id) + |Differs(layout[j], s.vars, up)|
    {
      CountSettles(layout, j, s, up, n);
    }
  }

  // ----- what the other side knows in the end -----

  lemma NothingDiffers(layout: Layout, vars: Params, up: Params, i: nat, k: nat)
    requires Served(layout, vars, up) && AllDiffers(layout, vars, up) == {}
    requires i < |layout| && k < |layout[i].vars|
    ensures var n := layout[i].vars[k].name; n in vars && n in up && vars[n] == up[n]
  {
    var n := layout[i].vars[k].name;
    assert ServedVar(layout[i].vars[k], vars, up);
    AllDiffersIn(layout, vars, up, n);
    assert n in NamesIn(layout[i].vars);
  }

  /** End to end: whatever variables the buffers share, after as many calls with frozen values as there
      were differences, over a channel without loss and however its messages queue up between polls, the
      receiver has no fault and knows exactly the current values of the block. */
  lemma FrozenRunDelivers(layout: Layout, vars: Params, own: Params, up: Params, n: nat, es: seq<Event>)
    requires WellFormed(layout) && Served(layout, vars, own) && Served(layout, vars, vars) && Served(layout, vars, up)
    requires |AllDiffers(layout, vars, up)| <= n
    requires Arrivals(es) == Outputs(Sender(vars, 0, [], []), layout, Frozen(up, n)).0.sent
    requires Unfold(Link([], Receiver(0, []), map[]), layout, own, es).queue == []
    ensures var l := Unfold(Link([], Receiver(0, []), map[]), layout, own, es);
            l.receiver.faults == [] && Mirrors(layout, vars, l.got, up)
  {
    hide AllDiffers, Differs, Outputs, Unfold, Arrivals;
    var s := Sender(vars, 0, [], []);
    var s1 := Outputs(s, layout, Frozen(up, n)).0;
    var l := Unfold(Link([], Receiver(0, []), map[]), layout, own, es);
    DistinctIdsAreFound(layout);
    FreshPairMirrors(layout, vars, own, Frozen(up, n), es);
    RunTotal(layout, s, up, n);
    RunEmpties(layout, s, up, n);
    forall i, k | 0 <= i < |layout| && 0 <= k < |layout[i].vars|
      ensures Known(layout[i].vars[k].name, vars, l.got, up)
    {
      assert Known(layout[i].vars[k].name, vars, l.got, s1.vars);
      NothingDiffers(layout, s1.vars, up, i, k);
    }
  }

  // ----- which one -----

  /** x is the next difference of buffer i, or no difference any more. */
  predicate NextIfAny(b: Buffer, vars: Params, up: Params, x: string) {
    DiffersAt(x, vars, up) ==> FirstDiff(b.vars, vars, up) == Some(x)
  }

  lemma {:induction false} FirstDiffStays(ds: seq<VarDesc>, vars: Params, up: Params, x: string, n: string)
    requires FirstDiff(ds, vars, up) == Some(x) && n != x && n in up
    ensures FirstDiff(ds, Fix(vars, Some(n), up), up) == Some(x)
    decreases ds
  {
    if ds != [] && !DiffersAt(ds[0].name, vars, up) { FirstDiffStays(ds[1..], vars, up, x, n); }
  }

  /** Differences are never made by a turn. */
  lemma TurnKeepsNext(layout: Layout, k: nat, i: nat, s: Sender, up: Params, x: string)
    requires LayoutFits(layout) && i < |layout| && k < |layout| && Fits(layout[k]) && Served(layout, s.vars, up)
    requires NextIfAny(layout[i], s.vars, up, x)
    ensures var s1 := OutputBuffer(s, layout[k], up).0;
            && NextIfAny(layout[i], s1.vars, up, x)
            && (!DiffersAt(x, s.vars, up) ==> !DiffersAt(x, s1.vars, up))
            && (k == i ==> !DiffersAt(x, s1.vars, up))
  {
    hide OutputBuffer;
    BufferFixesFirst(layout, k, s, up);
    FirstDiffFinds(layout[k].vars, s.vars, up);
    var n := FirstDiff(layout[k].vars, s.vars, up);
    if n.Some? && DiffersAt(x, s.vars, up) && n.value != x { FirstDiffStays(layout[i].vars, s.vars, up, x, n.value); }
  }

  lemma OnlyDifferenceGone(b: Buffer, vars: Params, up: Params, x: string)
    requires Differs(b, vars, up) <= {x} && !DiffersAt(x, vars, up)
    ensures Differs(b, vars, up) == {}
  {
  }

  /** One call, from buffer k on: buffer j, whose only difference is at most x, keeps silent, because x
      is gone before its turn. */
  lemma {:induction false} OutputStarves(layout: Layout, k: nat, i: nat, j: nat, s: Sender, up: Params, x: string)
    requires WellFormed(layout) && i < j < |layout| && k <= |layout| && Served(layout, s.vars, up)
    requires NextIfAny(layout[i], s.vars, up, x) && Differs(layout[j], s.vars, up) <= {x}
    requires k <= i || !DiffersAt(x, s.vars, up)
    ensures LayoutFits(layout[k..])
    ensures var (s1, o) := Output(s, layout[k..], up);
            && o.Ok? && Served(layout, s1.vars, up) && CountId(s1.sent, layout[j].id) == CountId(s.sent, layout[j].id)
            && Differs(layout[j], s1.vars, up) <= {x} && !DiffersAt(x, s1.vars, up)
    decreases |layout| - k
  {
    hide OutputBuffer, CountId, Differs, FirstDiff, NextIfAny, FindBuffer, ServedVar;
    if k < |layout| {
      assert layout[k..][1..] == layout[k + 1..] && Sound(layout[k]);
      ServedOutput(layout, k, s, up);
      ServedNext(layout, k, s, up, up);
      TurnKeepsNext(layout, k, i, s, up, x);
      TurnFixes(layout, k, s, up, j);
      if k == j { OnlyDifferenceGone(layout[j], s.vars, up, x); }
      TurnCounts(s, layout[k], up, layout[j].id);
      OutputStarves(layout, k + 1, i, j, OutputBuffer(s, layout[k], up).0, up, x);
    }
  }

  /** A variable listed in two buffers starves the later one: when it is the next difference of an
      earlier buffer and the only one of the later, the later sends nothing in any frozen run. */
  lemma {:induction false} SharedVariableStarves(layout: Layout, i: nat, j: nat, s: Sender, up: Params, x: string,
                                                 n: nat)
    requires WellFormed(layout) && i < j < |layout| && Served(layout, s.vars, up)
    requires NextIfAny(layout[i], s.vars, up, x) && Differs(layout[j], s.vars, up) <= {x}
    ensures CountId(Outputs(s, layout, Frozen(up, n)).0.sent, layout[j].id) == CountId(s.sent, layout[j].id)
    decreases n
  {
    hide CountId;
    if n > 0 {
      FrozenStep(up, n);
      assert layout[0..] == layout;
      OutputStarves(layout, 0, i, j, s, up, x);
      SharedVariableStarves(layout, i, j, Output(s, layout, up).0, up, x, n - 1);
    }
  }
}
