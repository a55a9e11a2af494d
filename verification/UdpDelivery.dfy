/** From sender to receiver: what one message carries, and what a whole lossless run leaves behind. */
module UdpDelivery {
  import opened Common
  import opened Values
  import opened Bytes
  import opened Checksum
  import opened UdpExchange

  predicate Apart(c: VarDesc, d: VarDesc) {
    c.offset + c.size <= d.offset || d.offset + d.size <= c.offset
  }

  /** A buffer whose variables lie behind the header and do not overlap, under a one-byte id. */
  ghost predicate Sound(b: Buffer) {
    && Fits(b) && b.id < 0x100
    && (forall i | 0 <= i < |b.vars| :: b.vars[i].offset >= 4)
    && AllApart(b.vars)
  }

  ghost predicate AllApart(ds: seq<VarDesc>) {
    forall i, k | 0 <= i < k < |ds| :: Apart(ds[i], ds[k])
  }

  // ----- the message under construction -----

  /** The buffer holds the bytes of the stored variable d. */
  ghost predicate Holds(d: VarDesc, f: Fill) {
    && d.name in f.vars && d.size == |ToBytes(f.vars[d.name])|
    && d.offset + d.size <= |f.msg|
    && f.msg[d.offset..d.offset + d.size] == ToBytes(f.vars[d.name])
  }

  /** Until something changes, the variables walked over equal those of the block. */
  ghost predicate Settled(d: VarDesc, f: Fill, up: Params) {
    d.name in f.vars && d.name in up && (!f.changed ==> f.vars[d.name] == up[d.name])
  }

  lemma FillOneHolds(d: VarDesc, f: Fill, up: Params)
    requires d.offset + d.size <= |f.msg| && f.verdict.Done?
    ensures var r := FillOne(d, f, up); r.verdict.Done? ==> Holds(d, r) && Settled(d, r, up)
  {
    if FillOne(d, f, up).verdict.Done? {
      PutHolds(f.msg, d.offset, ToBytes(FillOne(d, f, up).vars[d.name]));
    }
  }

  lemma FillOneKeeps(d: VarDesc, f: Fill, up: Params, c: VarDesc)
    requires d.offset + d.size <= |f.msg| && Apart(c, d) && Holds(c, f) && Settled(c, f, up)
    ensures var r := FillOne(d, f, up); r.verdict.Done? ==> Holds(c, r) && Settled(c, r, up)
  {
    var r := FillOne(d, f, up);
    if r.verdict.Done? {
      PutApart(f.msg, d.offset, ToBytes(r.vars[d.name]), c.offset, c.offset + c.size);
      assert r.vars[c.name] == f.vars[c.name];
    }
  }

  lemma {:induction false} FillKeeps(ds: seq<VarDesc>, f: Fill, up: Params, c: VarDesc)
    requires (forall d <- ds :: d.offset + d.size <= |f.msg|) && Holds(c, f) && Settled(c, f, up) && f.verdict.Done?
    requires forall i | 0 <= i < |ds| :: Apart(c, ds[i])
    ensures var r := FillVars(ds, f, up); r.verdict.Done? ==> Holds(c, r) && Settled(c, r, up)
    decreases ds
  {
    if ds != [] {
      FillOneKeeps(ds[0], f, up, c);
      var g := FillOne(ds[0], f, up);
      if g.verdict.Done? { FillKeeps(ds[1..], g, up, c); }
    }
  }

  /** A finished buffer holds every variable. */
  lemma {:induction false} FillHolds(ds: seq<VarDesc>, f: Fill, up: Params)
    requires (forall d <- ds :: d.offset + d.size <= |f.msg|) && f.verdict.Done? && AllApart(ds)
    requires FillVars(ds, f, up).verdict.Done?
    ensures forall i | 0 <= i < |ds| :: Holds(ds[i], FillVars(ds, f, up)) && Settled(ds[i], FillVars(ds, f, up), up)
    decreases ds
  {
    if ds != [] {
      var g := FillOne(ds[0], f, up);
      FillOneHolds(ds[0], f, up);
      FillKeeps(ds[1..], g, up, ds[0]);
      FillHolds(ds[1..], g, up);
      forall i | 0 <= i < |ds| ensures Holds(ds[i], FillVars(ds, f, up)) && Settled(ds[i], FillVars(ds, f, up), up) {
        if i > 0 { assert ds[i] == ds[1..][i - 1]; }
      }
    }
  }

  lemma FillOneFrame(d: VarDesc, f: Fill, up: Params)
    requires d.offset + d.size <= |f.msg| && d.offset >= 4
    ensures var r := FillOne(d, f, up);
            && r.msg[..4] == f.msg[..4] && TypesOf(r.vars) == TypesOf(f.vars)
            && (f.changed ==> r.changed) && (!r.changed ==> r.vars == f.vars)
  {
    var r := FillOne(d, f, up);
    if r.msg != f.msg { PutApart(f.msg, d.offset, ToBytes(r.vars[d.name]), 0, 4); }
    if d.name in f.vars { assert f.vars[d.name := f.vars[d.name]] == f.vars; }
    assert TypesOf(r.vars) == TypesOf(f.vars);
  }

  /** Walking over variables touches neither the header nor the types, and nothing at all changes
      while no change is flagged. */
  lemma {:induction false} FillFrame(ds: seq<VarDesc>, f: Fill, up: Params)
    requires forall d <- ds :: d.offset + d.size <= |f.msg|
    requires |f.msg| >= 4 && forall i | 0 <= i < |ds| :: ds[i].offset >= 4
    ensures var r := FillVars(ds, f, up);
            && r.msg[..4] == f.msg[..4] && TypesOf(r.vars) == TypesOf(f.vars)
            && (f.changed ==> r.changed) && (!r.changed ==> r.vars == f.vars)
    decreases ds
  {
    if ds != [] && f.verdict.Done? {
      FillOneFrame(ds[0], f, up);
      FillFrame(ds[1..], FillOne(ds[0], f, up), up);
    }
  }

  // ----- the header -----

  /** The checksum in a stamped message is the one its receiver computes. */
  lemma StampVerifies(msg: Message, counter: nat)
    requires |msg| >= 4
    ensures var m := Stamp(msg, counter);
            && |m| == |msg| && m[0] == msg[0] && m[1] == counter % 0x100 && m[4..] == msg[4..]
            && SumOf(m) == m[2] as int + 0x100 * m[3] as int
  {
    var m0, m := msg[1 := counter % 0x100], Stamp(msg, counter);
    assert m[4..] == m0[4..] == msg[4..];
  }

  // ----- decoding -----

  function NamesIn(ds: seq<VarDesc>): set<string> {
    set i | 0 <= i < |ds| :: ds[i].name
  }

  function Carried(ds: seq<VarDesc>, vars: Params): Params {
    map k | k in NamesIn(ds) && k in vars :: vars[k]
  }

  ghost predicate Readable(d: VarDesc, m: Message, own: Params, vars: Params) {
    && d.name in own && d.name in vars && TypeOf(own[d.name]) == TypeOf(vars[d.name])
    && d.offset + d.size <= |m| && m[d.offset..d.offset + d.size] == ToBytes(vars[d.name])
  }

  lemma CarriedStep(ds: seq<VarDesc>, vars: Params, res: Params)
    requires ds != [] && ds[0].name in vars
    ensures res[ds[0].name := vars[ds[0].name]] + Carried(ds[1..], vars) == res + Carried(ds, vars)
  {
    assert NamesIn(ds) == {ds[0].name} + NamesIn(ds[1..]) by {
      forall i | 0 < i < |ds| ensures ds[i] == ds[1..][i - 1] {}
    }
  }

  lemma {:induction false} DecodeReadable(ds: seq<VarDesc>, own: Params, m: Message, vars: Params, res: Params)
    requires forall d <- ds :: d.offset + d.size <= |m|
    requires forall i | 0 <= i < |ds| :: Readable(ds[i], m, own, vars)
    ensures DecodeVars(ds, own, m, res) == (res + Carried(ds, vars), [])
    decreases ds
  {
    if ds == [] {
      assert res + Carried(ds, vars) == res;
    } else {
      assert Readable(ds[0], m, own, vars);
      CodecRoundTrip(vars[ds[0].name]);
      CarriedStep(ds, vars, res);
      DecodeReadable(ds[1..], own, m, vars, res[ds[0].name := vars[ds[0].name]]);
    }
  }

  // ----- one message end to end -----

  ghost predicate TypesAgree(b: Buffer, own: Params, vars: Params) {
    forall i | 0 <= i < |b.vars| ::
      b.vars[i].name in own && (b.vars[i].name in vars ==> TypeOf(own[b.vars[i].name]) == TypeOf(vars[b.vars[i].name]))
  }

  ghost predicate Sends(s: Sender, b: Buffer, up: Params)
    requires Fits(b)
  {
    |OutputBuffer(s, b, up).0.sent| > |s.sent|
  }

  lemma StampReadable(d: VarDesc, f: Fill, counter: nat)
    requires |f.msg| >= 4 && d.offset >= 4 && Holds(d, f)
    ensures Readable(d, Stamp(f.msg, counter), f.vars, f.vars)
  {
    var m := Stamp(f.msg, counter);
    StampVerifies(f.msg, counter);
    assert m[d.offset..d.offset + d.size] == m[4..][d.offset - 4..d.offset - 4 + d.size] ==
      f.msg[d.offset..d.offset + d.size];
  }

  /** The buffer as the walk leaves it. */
  function Filled(s: Sender, b: Buffer, up: Params): Fill
    requires Fits(b)
  {
    FillVars(b.vars, Fill(s.vars, Blank(b), false, Done), up)
  }

  lemma SentIsStamped(s: Sender, b: Buffer, up: Params)
    requires Fits(b) && Sends(s, b, up)
    ensures var f := Filled(s, b, up);
            && f.verdict.Done? && |f.msg| == b.size
            && OutputBuffer(s, b, up).0 ==
                 Sender(f.vars, s.counter + 1, s.sent + [Stamp(f.msg, s.counter + 1)], s.faults)
  {
  }

  lemma SentReadable(s: Sender, b: Buffer, up: Params)
    requires Sound(b) && Sends(s, b, up)
    ensures var f := Filled(s, b, up);
            forall i | 0 <= i < |b.vars| :: Readable(b.vars[i], Stamp(f.msg, s.counter + 1), f.vars, f.vars)
  {
    SentIsStamped(s, b, up);
    var f := Filled(s, b, up);
    FillHolds(b.vars, Fill(s.vars, Blank(b), false, Done), up);
    forall i | 0 <= i < |b.vars| ensures Readable(b.vars[i], Stamp(f.msg, s.counter + 1), f.vars, f.vars) {
      StampReadable(b.vars[i], f, s.counter + 1);
    }
  }

  lemma FilledId(s: Sender, b: Buffer, up: Params)
    requires Sound(b)
    ensures Filled(s, b, up).msg[0] == b.id
  {
    FillFrame(b.vars, Fill(s.vars, Blank(b), false, Done), up);
    assert Filled(s, b, up).msg[0] == Filled(s, b, up).msg[..4][0] == Blank(b)[..4][0];
  }

  /** What a message looks like. */
  lemma SentMessage(s: Sender, b: Buffer, up: Params) returns (m: Message)
    requires Sound(b) && Sends(s, b, up)
    ensures var s1 := OutputBuffer(s, b, up).0;
            && s1.sent == s.sent + [m] && s1.counter == s.counter + 1
            && |m| == b.size && m[0] == b.id && m[1] == s1.counter % 0x100
            && SumOf(m) == m[2] as int + 0x100 * m[3] as int
            && forall i | 0 <= i < |b.vars| :: Readable(b.vars[i], m, s1.vars, s1.vars)
  {
    SentIsStamped(s, b, up);
    SentReadable(s, b, up);
    FilledId(s, b, up);
    m := Stamp(Filled(s, b, up).msg, s.counter + 1);
    StampVerifies(Filled(s, b, up).msg, s.counter + 1);
  }

  /** Every message the sender emits for a sound buffer is accepted by a receiver with the same buffer
      whose last counter byte differs, and reads as exactly the sender's stored values. */
  lemma EndToEnd(s: Sender, b: Buffer, up: Params, r: Receiver, layout: Layout, own: Params, res: Params)
    requires Sound(b) && Sends(s, b, up)
    requires LayoutFits(layout) && FindBuffer(layout, b.id) == Some(b)
    requires TypesAgree(b, own, s.vars)
    requires r.counter % 0x100 != OutputBuffer(s, b, up).0.counter % 0x100
    ensures var s1 := OutputBuffer(s, b, up).0;
            && s1.sent != [] && |s1.sent[|s1.sent| - 1]| > 0
            && Accept(r, layout, own, s1.sent[|s1.sent| - 1], res) ==
               (Receiver(s1.counter % 0x100, r.faults), res + Carried(b.vars, s1.vars))
  {
    var m := SentMessage(s, b, up);
    var s1 := OutputBuffer(s, b, up).0;
    FillFrame(b.vars, Fill(s.vars, Blank(b), false, Done), up);
    forall i | 0 <= i < |b.vars| ensures Readable(b.vars[i], m, own, s1.vars) {
      var n := b.vars[i].name;
      assert Readable(b.vars[i], m, s1.vars, s1.vars);
      assert TypesOf(s1.vars)[n] == TypesOf(s.vars)[n];
    }
    DecodeReadable(b.vars, own, m, s1.vars, res);
    assert r.faults + [] == r.faults;
  }

  // ----- lossless runs -----

  /** The block offers every variable of the layout, in the stored type and in the described size. */
  ghost predicate Served(layout: Layout, vars: Params, up: Params) {
    forall i, k | 0 <= i < |layout| && 0 <= k < |layout[i].vars| :: ServedVar(layout[i].vars[k], vars, up)
  }

  predicate ServedVar(d: VarDesc, vars: Params, up: Params) {
    && d.name in up && d.name in vars && TypeOf(up[d.name]) == TypeOf(vars[d.name])
    && |ToBytes(up[d.name])| == d.size == |ToBytes(vars[d.name])|
  }

  lemma {:induction false} ServedFill(ds: seq<VarDesc>, f: Fill, up: Params)
    requires forall d <- ds :: d.offset + d.size <= |f.msg|
    requires f.verdict.Done? && forall i | 0 <= i < |ds| :: ServedVar(ds[i], f.vars, up)
    ensures FillVars(ds, f, up).verdict.Done?
    ensures forall k | k in f.vars ::
              k in FillVars(ds, f, up).vars &&
                (FillVars(ds, f, up).vars[k] == f.vars[k] || (k in up && FillVars(ds, f, up).vars[k] == up[k]))
    decreases ds
  {
    if ds != [] {
      assert ServedVar(ds[0], f.vars, up);
      var g := FillOne(ds[0], f, up);
      forall i | 0 <= i < |ds[1..]| ensures ServedVar(ds[1..][i], g.vars, up) {
        assert ServedVar(ds[i + 1], f.vars, up);
      }
      ServedFill(ds[1..], g, up);
    }
  }
}
