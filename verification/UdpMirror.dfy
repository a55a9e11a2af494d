/** Whole runs of a sender against a receiver: numbering, and the mirror of the sender's variables. */
module UdpMirror {
  import opened Common
  import opened Values
  import opened Checksum
  import opened UdpExchange
  import opened UdpDelivery
  import opened UdpRuns

  /** Every buffer of the layout is sound and the one found under its id. */
  ghost predicate SoundLayout(layout: Layout) {
    && LayoutFits(layout)
    && forall i | 0 <= i < |layout| :: Sound(layout[i]) && FindBuffer(layout, layout[i].id) == Some(layout[i])
  }

  lemma {:induction false} FindFirst(layout: Layout, i: nat)
    requires i < |layout| && DistinctIds(layout)
    ensures FindBuffer(layout, layout[i].id) == Some(layout[i])
    decreases layout
  {
    if i > 0 { FindFirst(layout[1..], i - 1); }
  }

  /** A std::map has no key twice. */
  ghost predicate DistinctIds(layout: Layout) {
    forall j, k | 0 <= j < k < |layout| :: layout[j].id != layout[k].id
  }

  /** What a configuration must keep to: sound buffers under distinct ids. */
  ghost predicate WellFormed(layout: Layout) {
    LayoutFits(layout) && DistinctIds(layout) && forall i | 0 <= i < |layout| :: Sound(layout[i])
  }

  /** Distinct ids are all it takes to be found. */
  lemma DistinctIdsAreFound(layout: Layout)
    requires WellFormed(layout)
    ensures SoundLayout(layout)
  {
    forall i | 0 <= i < |layout| ensures FindBuffer(layout, layout[i].id) == Some(layout[i]) { FindFirst(layout, i); }
  }

  /** A sequence of output_vars calls, cut short by an exception. */
  function Outputs(s: Sender, layout: Layout, ups: seq<Params>): (Sender, Outcome<()>)
    requires LayoutFits(layout)
    decreases ups
  {
    if ups == [] then (s, Ok(()))
    else
      var (s1, o) := Output(s, layout, ups[0]);
      if o.Throw? then (s1, o) else Outputs(s1, layout, ups[1..])
  }

  // ----- numbering -----

  /** s1 has sent more than s, numbered on from its counter. */
  ghost predicate SentOn(layout: Layout, s: Sender, s1: Sender)
    requires LayoutFits(layout)
  {
    && s.sent <= s1.sent && s1.counter == s.counter + |s1.sent| - |s.sent|
    && forall k | |s.sent| <= k < |s1.sent| :: NumberedOne(layout, s1.sent[k], s.counter + k - |s.sent| + 1)
  }

  lemma SentOnTrans(layout: Layout, a: Sender, b: Sender, c: Sender)
    requires LayoutFits(layout) && SentOn(layout, a, b) && SentOn(layout, b, c)
    ensures SentOn(layout, a, c)
  {
    forall k | |a.sent| <= k < |c.sent| ensures NumberedOne(layout, c.sent[k], a.counter + k - |a.sent| + 1) {
      if k < |b.sent| { assert c.sent[k] == b.sent[k]; }
    }
  }

  lemma SentIsNumbered(layout: Layout, b: Buffer, s: Sender, up: Params) returns (m: Message)
    requires LayoutFits(layout) && Sound(b) && FindBuffer(layout, b.id) == Some(b) && Sends(s, b, up)
    ensures NumberedOne(layout, m, s.counter + 1)
    ensures var s1 := OutputBuffer(s, b, up).0; s1.sent == s.sent + [m] && s1.counter == s.counter + 1
  {
    m := SentMessage(s, b, up);
  }

  lemma SilentKeepsCounter(b: Buffer, s: Sender, up: Params)
    requires Fits(b) && !Sends(s, b, up)
    ensures OutputBuffer(s, b, up).0.sent == s.sent && OutputBuffer(s, b, up).0.counter == s.counter
  {
  }

  lemma OneMoreSentOn(layout: Layout, s: Sender, s1: Sender, m: Message)
    requires LayoutFits(layout) && s1.sent == s.sent + [m] && s1.counter == s.counter + 1 &&
             NumberedOne(layout, m, s.counter + 1)
    ensures SentOn(layout, s, s1)
  {
  }

  lemma BufferSendsOn(layout: Layout, b: Buffer, s: Sender, up: Params)
    requires LayoutFits(layout) && Sound(b) && FindBuffer(layout, b.id) == Some(b)
    ensures SentOn(layout, s, OutputBuffer(s, b, up).0)
  {
    if Sends(s, b, up) {
      var m := SentIsNumbered(layout, b, s, up);
      OneMoreSentOn(layout, s, OutputBuffer(s, b, up).0, m);
    } else {
      SilentKeepsCounter(b, s, up);
    }
  }

  lemma {:induction false} OutputSendsOn(layout: Layout, rest: Layout, s: Sender, up: Params)
    requires LayoutFits(layout) && LayoutFits(rest)
    requires forall i | 0 <= i < |rest| :: Sound(rest[i]) && FindBuffer(layout, rest[i].id) == Some(rest[i])
    ensures SentOn(layout, s, Output(s, rest, up).0)
    decreases rest
  {
    if rest != [] {
      var (s1, o) := OutputBuffer(s, rest[0], up);
      BufferSendsOn(layout, rest[0], s, up);
      if o.Ok? {
        OutputSendsOn(layout, rest[1..], s1, up);
        SentOnTrans(layout, s, s1, Output(s1, rest[1..], up).0);
      }
    }
  }

  /** The messages of any run are numbered one after another, whatever faults occur. */
  lemma {:induction false} OutputsSendOn(layout: Layout, s: Sender, ups: seq<Params>)
    requires SoundLayout(layout)
    ensures SentOn(layout, s, Outputs(s, layout, ups).0)
    decreases ups
  {
    if ups != [] {
      var (s1, o) := Output(s, layout, ups[0]);
      OutputSendsOn(layout, layout, s, ups[0]);
      if o.Ok? {
        OutputsSendOn(layout, s1, ups[1..]);
        SentOnTrans(layout, s, s1, Outputs(s1, layout, ups[1..]).0);
      }
    }
  }

  /** Any selection of the messages of a fresh sender, repeated, dropped or reordered at will. */
  ghost predicate Picked(sent: seq<Message>, ms: seq<Message>, js: seq<nat>) {
    |ms| == |js| && forall k | 0 <= k < |ms| :: 1 <= js[k] <= |sent| && ms[k] == sent[js[k] - 1]
  }

  lemma PickedIsNumbered(layout: Layout, s: Sender, ups: seq<Params>, ms: seq<Message>, js: seq<nat>)
    requires SoundLayout(layout) && s.counter == 0 && s.sent == [] && Picked(Outputs(s, layout, ups).0.sent, ms, js)
    ensures Numbered(layout, ms, js) && NoneEmpty(ms)
  {
    OutputsSendOn(layout, s, ups);
    var sent := Outputs(s, layout, ups).0.sent;
    forall k | 0 <= k < |ms| ensures NumberedOne(layout, ms[k], js[k]) {
      assert NumberedOne(layout, sent[js[k] - 1], 0 + (js[k] - 1) - 0 + 1);
    }
  }

  /** The sequence check over a lossy channel, from a fresh sender and a fresh receiver, however arrivals
      and polls interleave: the next message j is refused exactly when 256 divides its distance from the
      last of the messages read so far that set the counter. */
  lemma LossyChannelRefuses(layout: Layout, vars: Params, own: Params, ups: seq<Params>, es: seq<Event>,
                            js: seq<nat>, j: nat)
    requires SoundLayout(layout)
    requires var sent := Outputs(Sender(vars, 0, [], []), layout, ups).0.sent;
             Picked(sent, Arrivals(es), js) && 1 <= j <= |sent|
    ensures var sent := Outputs(Sender(vars, 0, [], []), layout, ups).0.sent;
            var l := Unfold(Link([], Receiver(0, []), map[]), layout, own, es);
            && |l.queue| <= |js| && |sent[j - 1]| > 0
            && (Refused(l.receiver, layout, own, sent[j - 1]) <==>
                 (j - LastSet(0, js[..|js| - |l.queue|])) % 0x100 == 0)
  {
    hide Outputs, AcceptAll, Accept, Unfold, Refused, LastSet, FindBuffer, Sound, Arrivals;
    var s, l0 := Sender(vars, 0, [], []), Link([], Receiver(0, []), map[]);
    var sent := Outputs(s, layout, ups).0.sent;
    var done := PollingIsTransparent(l0, layout, own, es);
    var l := Unfold(l0, layout, own, es);
    ReadPart(done, l.queue, Arrivals(es), sent, js);
    PickedIsRefused(layout, s, ups, own, done, js[..|done|], j);
  }

  /** What has been read so far is picked as well. */
  lemma ReadPart(done: seq<Message>, queue: seq<Message>, arrivals: seq<Message>, sent: seq<Message>, js: seq<nat>)
    requires done + queue == [] + arrivals && Picked(sent, arrivals, js)
    ensures |js| - |queue| == |done| && Picked(sent, done, js[..|done|])
  {
    assert done == (done + queue)[..|done|] && [] + arrivals == arrivals;
  }

  lemma PickedIsRefused(layout: Layout, s: Sender, ups: seq<Params>, own: Params, ms: seq<Message>, js: seq<nat>,
                        j: nat)
    requires SoundLayout(layout) && s.counter == 0 && s.sent == []
    requires var sent := Outputs(s, layout, ups).0.sent; Picked(sent, ms, js) && 1 <= j <= |sent|
    ensures var sent := Outputs(s, layout, ups).0.sent;
            && NoneEmpty(ms) && |sent[j - 1]| > 0
            && (Refused(AcceptAll(Receiver(0, []), layout, own, ms, map[]).0, layout, own, sent[j - 1]) <==>
                (j - LastSet(0, js)) % 0x100 == 0)
  {
    hide Outputs, AcceptAll, Refused, LastSet, FindBuffer, Sound;
    var m := Outputs(s, layout, ups).0.sent[j - 1];
    PickedIsNumbered(layout, s, ups, ms, js);
    PickedIsNumbered(layout, s, ups, [m], [j]);
    assert NumberedOne(layout, [m][0], [j][0]);
    RefusedIffDivides(Receiver(0, []), 0, layout, own, ms, js, m, j, map[]);
  }

  // ----- the mirror -----

  /** What the other side knows of variable n: the last value it read, else the one it started with. */
  predicate Known(n: string, start: Params, got: Params, vars: Params) {
    && n in vars
    && if n in got then got[n] == vars[n] else n in start && start[n] == vars[n]
  }

  ghost predicate Mirrors(layout: Layout, start: Params, got: Params, vars: Params) {
    forall i, k | 0 <= i < |layout| && 0 <= k < |layout[i].vars| :: Known(layout[i].vars[k].name, start, got, vars)
  }

  lemma {:induction false} FillTouchesNames(ds: seq<VarDesc>, f: Fill, up: Params, n: string)
    requires (forall d <- ds :: d.offset + d.size <= |f.msg|) && n !in NamesIn(ds)
    ensures n in FillVars(ds, f, up).vars <==> n in f.vars
    ensures n in f.vars ==> FillVars(ds, f, up).vars[n] == f.vars[n]
    decreases ds
  {
    if ds != [] && f.verdict.Done? {
      assert ds[0].name in NamesIn(ds);
      forall i | 0 <= i < |ds[1..]| ensures ds[1..][i].name in NamesIn(ds) { assert ds[1..][i] == ds[i + 1]; }
      FillTouchesNames(ds[1..], FillOne(ds[0], f, up), up, n);
    }
  }

  lemma ServedOutput(layout: Layout, i: nat, s: Sender, up: Params)
    requires LayoutFits(layout) && i < |layout| && Fits(layout[i]) && Served(layout, s.vars, up)
    ensures var f := Filled(s, layout[i], up);
            && f.verdict.Done? && OutputBuffer(s, layout[i], up).0.faults == s.faults
            && OutputBuffer(s, layout[i], up).1.Ok?
  {
    var b := layout[i];
    forall k | 0 <= k < |b.vars| ensures ServedVar(b.vars[k], s.vars, up) {}
    ServedFill(b.vars, Fill(s.vars, Blank(b), false, Done), up);
  }

  /** What stays served while buffers are filled. */
  lemma ServedNext(layout: Layout, i: nat, s: Sender, up: Params, next: Params)
    requires LayoutFits(layout) && i < |layout| && Fits(layout[i]) && Served(layout, s.vars, up) &&
             Served(layout, s.vars, next)
    ensures Served(layout, OutputBuffer(s, layout[i], up).0.vars, next)
  {
    var b := layout[i];
    forall k | 0 <= k < |b.vars| ensures ServedVar(b.vars[k], s.vars, up) {}
    ServedFill(b.vars, Fill(s.vars, Blank(b), false, Done), up);
    var s1 := OutputBuffer(s, b, up).0;
    forall j, k | 0 <= j < |layout| && 0 <= k < |layout[j].vars| ensures ServedVar(layout[j].vars[k], s1.vars, next) {
      assert ServedVar(layout[j].vars[k], s.vars, up) && ServedVar(layout[j].vars[k], s.vars, next);
    }
  }

  lemma ServedTypes(layout: Layout, i: nat, s: Sender, up: Params, own: Params)
    requires i < |layout| && Served(layout, s.vars, up) && Served(layout, s.vars, own)
    ensures TypesAgree(layout[i], own, s.vars)
  {
    forall k | 0 <= k < |layout[i].vars|
      ensures var n := layout[i].vars[k].name; n in own && (n in s.vars ==> TypeOf(own[n]) == TypeOf(s.vars[n]))
    {
      assert ServedVar(layout[i].vars[k], s.vars, own);
    }
  }

  /** After a message of buffer b has been read, b is known and nothing else has changed. */
  lemma SentMirrors(layout: Layout, b: Buffer, s: Sender, up: Params, start: Params, got: Params)
    requires Sound(b) && Mirrors(layout, start, got, s.vars)
    requires var f := Filled(s, b, up); f.verdict.Done? && TypesOf(f.vars) == TypesOf(s.vars)
    ensures var f := Filled(s, b, up); Mirrors(layout, start, got + Carried(b.vars, f.vars), f.vars)
  {
    var f := Filled(s, b, up);
    var got1 := got + Carried(b.vars, f.vars);
    forall i, k | 0 <= i < |layout| && 0 <= k < |layout[i].vars|
      ensures Known(layout[i].vars[k].name, start, got1, f.vars) {
      var n := layout[i].vars[k].name;
      assert Known(n, start, got, s.vars);
      assert n in TypesOf(f.vars);
      if n !in NamesIn(b.vars) { FillTouchesNames(b.vars, Fill(s.vars, Blank(b), false, Done), up, n); }
    }
  }

  /** The state shared by the two ends between two buffers. */
  ghost predicate InStep(layout: Layout, s: Sender, r: Receiver, start: Params, got: Params) {
    r.counter % 0x100 == s.counter % 0x100 && Mirrors(layout, start, got, s.vars)
  }

  function SentSince(s: Sender, s1: Sender): seq<Message>
    requires s.sent <= s1.sent
  {
    s1.sent[|s.sent|..]
  }

  lemma AcceptOne(r: Receiver, layout: Layout, own: Params, m: Message, res: Params)
    requires LayoutFits(layout) && |m| > 0
    ensures NoneEmpty([m]) && AcceptAll(r, layout, own, [m], res) == Accept(r, layout, own, m, res)
  {
  }

  lemma DeliveredMessage(layout: Layout, i: nat, s: Sender, up: Params, r: Receiver, own: Params, got: Params)
    requires SoundLayout(layout) && i < |layout| && Served(layout, s.vars, up) && Served(layout, s.vars, own)
    requires r.counter % 0x100 == s.counter % 0x100 && Fits(layout[i]) && Sends(s, layout[i], up)
    ensures var s1 := OutputBuffer(s, layout[i], up).0;
            && s.sent <= s1.sent && NoneEmpty(SentSince(s, s1))
            && AcceptAll(r, layout, own, SentSince(s, s1), got) ==
               (Receiver(s1.counter % 0x100, r.faults), got + Carried(layout[i].vars, s1.vars))
  {
    var b := layout[i];
    assert Sound(b);
    ServedTypes(layout, i, s, up, own);
    var m := SentIsNumbered(layout, b, s, up);
    EndToEnd(s, b, up, r, layout, own, got);
    AcceptOne(r, layout, own, m, got);
    assert SentSince(s, OutputBuffer(s, b, up).0) == [m];
  }

  lemma SendingBufferMirrors(layout: Layout, i: nat, s: Sender, up: Params, r: Receiver, own: Params, start: Params,
          got: Params)
    requires SoundLayout(layout) && i < |layout| && Served(layout, s.vars, up) && Served(layout, s.vars, own)
    requires InStep(layout, s, r, start, got) && Fits(layout[i]) && Sends(s, layout[i], up)
    ensures var s1 := OutputBuffer(s, layout[i], up).0;
            && s.sent <= s1.sent && NoneEmpty(SentSince(s, s1))
            && var (r1, got1) := AcceptAll(r, layout, own, SentSince(s, s1), got);
               r1.faults == r.faults && InStep(layout, s1, r1, start, got1)
  {
    var b := layout[i];
    assert Sound(b);
    DeliveredMessage(layout, i, s, up, r, own, got);
    SentIsStamped(s, b, up);
    FillFrame(b.vars, Fill(s.vars, Blank(b), false, Done), up);
    SentMirrors(layout, b, s, up, start, got);
    var s1 := OutputBuffer(s, b, up).0;
    InStepFrom(layout, s1, AcceptAll(r, layout, own, SentSince(s, s1), got), r.faults, start, got +
      Carried(b.vars, s1.vars));
  }

  lemma InStepFrom(layout: Layout, s: Sender, read: (Receiver, Params), faults: seq<Fault>, start: Params, got: Params)
    requires read == (Receiver(s.counter % 0x100, faults), got) && Mirrors(layout, start, got, s.vars)
    ensures read.0.faults == faults && InStep(layout, s, read.0, start, read.1)
  {
  }

  lemma BufferMirrors(layout: Layout, i: nat, s: Sender, up: Params, r: Receiver, own: Params, start: Params,
                      got: Params)
    requires SoundLayout(layout) && i < |layout| && Served(layout, s.vars, up) && Served(layout, s.vars, own)
    requires InStep(layout, s, r, start, got) && Fits(layout[i])
    ensures var s1 := OutputBuffer(s, layout[i], up).0;
            && s.sent <= s1.sent && NoneEmpty(SentSince(s, s1))
            && var (r1, got1) := AcceptAll(r, layout, own, SentSince(s, s1), got);
               r1.faults == r.faults && InStep(layout, s1, r1, start, got1)
  {
    if Sends(s, layout[i], up) {
      SendingBufferMirrors(layout, i, s, up, r, own, start, got);
    } else {
      ServedOutput(layout, i, s, up);
      assert Sound(layout[i]);
      FillFrame(layout[i].vars, Fill(s.vars, Blank(layout[i]), false, Done), up);
    }
  }

  /** Two stretches of sending, read one after the other. */
  lemma ReadTwice(layout: Layout, own: Params, a: Sender, b: Sender, c: Sender, r: Receiver, got: Params)
    requires LayoutFits(layout) && a.sent <= b.sent && b.sent <= c.sent
    requires NoneEmpty(SentSince(a, b)) && NoneEmpty(SentSince(b, c))
    ensures a.sent <= c.sent && NoneEmpty(SentSince(a, c))
    ensures var (r1, got1) := AcceptAll(r, layout, own, SentSince(a, b), got);
            AcceptAll(r, layout, own, SentSince(a, c), got) == AcceptAll(r1, layout, own, SentSince(b, c), got1)
  {
    AcceptAllConcat(r, layout, own, SentSince(a, b), SentSince(b, c), got);
    assert SentSince(a, c) == SentSince(a, b) + SentSince(b, c);
  }

  /** One call of output_vars, from buffer number i on. */
  lemma {:induction false} OutputMirrors(layout: Layout, i: nat, s: Sender, up: Params, r: Receiver, own: Params,
          start: Params, got: Params)
    requires SoundLayout(layout) && i <= |layout| && Served(layout, s.vars, up) && Served(layout, s.vars, own)
    requires InStep(layout, s, r, start, got)
    ensures LayoutFits(layout[i..])
    ensures var (s1, o) := Output(s, layout[i..], up);
            && o.Ok? && s.sent <= s1.sent && NoneEmpty(SentSince(s, s1)) && s1.faults == s.faults
            && var (r1, got1) := AcceptAll(r, layout, own, SentSince(s, s1), got);
               r1.faults == r.faults && InStep(layout, s1, r1, start, got1)
    decreases |layout| - i
  {
    if i < |layout| {
      assert layout[i..][1..] == layout[i + 1..] && Sound(layout[i]);
      var s1 := OutputBuffer(s, layout[i], up).0;
      BufferMirrors(layout, i, s, up, r, own, start, got);
      ServedOutput(layout, i, s, up);
      ServedNext(layout, i, s, up, up);
      ServedNext(layout, i, s, up, own);
      var (r1, got1) := AcceptAll(r, layout, own, SentSince(s, s1), got);
      OutputMirrors(layout, i + 1, s1, up, r1, own, start, got1);
      ReadTwice(layout, own, s, s1, Output(s1, layout[i + 1..], up).0, r, got);
    }
  }

  lemma {:induction false} OutputServed(layout: Layout, i: nat, s: Sender, up: Params, next: Params)
    requires SoundLayout(layout) && i <= |layout| && Served(layout, s.vars, up) && Served(layout, s.vars, next)
    ensures LayoutFits(layout[i..]) && Served(layout, Output(s, layout[i..], up).0.vars, next)
    decreases |layout| - i
  {
    if i < |layout| {
      assert layout[i..][1..] == layout[i + 1..] && Sound(layout[i]);
      var s1 := OutputBuffer(s, layout[i], up).0;
      ServedOutput(layout, i, s, up);
      ServedNext(layout, i, s, up, up);
      ServedNext(layout, i, s, up, next);
      OutputServed(layout, i + 1, s1, up, next);
    }
  }

  /** The mirror over a whole run: while every call is served and every message is read in order, the
      receiver never faults and what it knows is what the sender stores. */
  lemma {:induction false} OutputsMirror(layout: Layout, s: Sender, ups: seq<Params>, r: Receiver, own: Params,
          start: Params, got: Params)
    requires SoundLayout(layout) && Served(layout, s.vars, own)
    requires forall k | 0 <= k < |ups| :: Served(layout, s.vars, ups[k])
    requires InStep(layout, s, r, start, got)
    ensures var (s1, o) := Outputs(s, layout, ups);
            && o.Ok? && s.sent <= s1.sent && NoneEmpty(SentSince(s, s1)) && s1.faults == s.faults
            && var (r1, got1) := AcceptAll(r, layout, own, SentSince(s, s1), got);
               r1.faults == r.faults && InStep(layout, s1, r1, start, got1)
    decreases ups
  {
    if ups != [] {
      var s1 := Output(s, layout, ups[0]).0;
      assert layout[0..] == layout;
      OutputMirrors(layout, 0, s, ups[0], r, own, start, got);
      OutputServed(layout, 0, s, ups[0], own);
      forall k | 0 <= k < |ups[1..]| ensures Served(layout, s1.vars, ups[1..][k]) {
        assert ups[1..][k] == ups[k + 1];
        OutputServed(layout, 0, s, ups[0], ups[k + 1]);
      }
      var (r1, got1) := AcceptAll(r, layout, own, SentSince(s, s1), got);
      OutputsMirror(layout, s1, ups[1..], r1, own, start, got1);
      ReadTwice(layout, own, s, s1, Outputs(s1, layout, ups[1..]).0, r, got);
    }
  }

  lemma SinceNothing(s: Sender, s1: Sender)
    requires s.sent == []
    ensures SentSince(s, s1) == s1.sent
  {
  }

  /** End to end from a fresh pair: whatever the block's values do, and however the messages queue up
      between polls, once the queue has been read the receiver has no fault and its values over the
      sender's first ones are the sender's stored values. */
  lemma FreshPairMirrors(layout: Layout, vars: Params, own: Params, ups: seq<Params>, es: seq<Event>)
    requires SoundLayout(layout) && Served(layout, vars, own) && Served(layout, vars, vars)
    requires forall k | 0 <= k < |ups| :: Served(layout, vars, ups[k])
    requires Arrivals(es) == Outputs(Sender(vars, 0, [], []), layout, ups).0.sent
    requires Unfold(Link([], Receiver(0, []), map[]), layout, own, es).queue == []
    ensures var s1 := Outputs(Sender(vars, 0, [], []), layout, ups).0;
            var l := Unfold(Link([], Receiver(0, []), map[]), layout, own, es);
            s1.faults == [] && l.receiver.faults == [] && Mirrors(layout, vars, l.got, s1.vars)
  {
    var s, r := Sender(vars, 0, [], []), Receiver(0, []);
    forall i, k | 0 <= i < |layout| && 0 <= k < |layout[i].vars|
      ensures Known(layout[i].vars[k].name, vars, map[], vars) {
      assert ServedVar(layout[i].vars[k], vars, vars);
    }
    OutputsMirror(layout, s, ups, r, own, vars, map[]);
    var done := PollingIsTransparent(Link([], r, map[]), layout, own, es);
    assert done == done + [] && Arrivals(es) == [] + Arrivals(es);
    SinceNothing(s, Outputs(s, layout, ups).0);
  }
}
