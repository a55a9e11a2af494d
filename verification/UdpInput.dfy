/** What input_vars hands to its block: values of the right types, and after a bad value the part of the
    message that came before it. */
module UdpInput {
  import opened Common
  import opened Values
  import opened UdpExchange
  import opened UdpDelivery

  // ----- types -----

  lemma {:induction false} DecodeTyped(ds: seq<VarDesc>, own: Params, m: Message, res: Params)
    requires (forall d <- ds :: d.offset + d.size <= |m|) && SomeOf(res, own)
    ensures SomeOf(DecodeVars(ds, own, m, res).0, own)
    decreases ds
  {
    hide FromBytes;
    if ds != [] {
      var d := ds[0];
      if d.name !in own {
        DecodeTyped(ds[1..], own, m, res);
      } else {
        var data := m[d.offset..d.offset + d.size];
        DecodeKeepsType(TypeOf(own[d.name]), data);
        var v := FromBytes(TypeOf(own[d.name]), data);
        if v.Some? { DecodeTyped(ds[1..], own, m, res[d.name := v.value]); }
      }
    }
  }

  lemma {:induction false} AcceptAllTyped(r: Receiver, layout: Layout, own: Params, ms: seq<Message>, res: Params)
    requires LayoutFits(layout) && NoneEmpty(ms) && SomeOf(res, own)
    ensures SomeOf(AcceptAll(r, layout, own, ms, res).1, own)
    decreases ms
  {
    if ms != [] {
      FoundFits(layout, ms[0][0]);
      var b := FindBuffer(layout, ms[0][0]);
      if b.Some? && |ms[0]| == b.value.size { DecodeTyped(b.value.vars, own, ms[0], res); }
      var (r1, res1) := Accept(r, layout, own, ms[0], res);
      AcceptAllTyped(r1, layout, own, ms[1..], res1);
    }
  }

  /** Whatever arrives, input_vars hands over variables of the block only, each with a value of its type. */
  lemma InputIsTyped(r: Receiver, layout: Layout, own: Params, ms: seq<Message>)
    requires LayoutFits(layout) && NoneEmpty(ms)
    ensures SomeOf(Input(r, layout, own, ms).1, own)
  {
    AcceptAllTyped(r, layout, own, ms, map[]);
  }

  // ----- bad values -----

  predicate Bad(d: VarDesc, own: Params, m: Message)
    requires d.offset + d.size <= |m|
  {
    d.name in own && FromBytes(TypeOf(own[d.name]), m[d.offset..d.offset + d.size]).None?
  }

  /** Variable k of the message is the first that cannot be read. */
  ghost predicate FirstBad(ds: seq<VarDesc>, own: Params, m: Message, k: nat)
    requires forall d <- ds :: d.offset + d.size <= |m|
  {
    k < |ds| && Bad(ds[k], own, m) && forall j | 0 <= j < k :: !Bad(ds[j], own, m)
  }

  /** The walk reads the variables before the bad one, reports it and stops. */
  lemma {:induction false} BadValueStops(ds: seq<VarDesc>, own: Params, m: Message, res: Params, k: nat)
    requires (forall d <- ds :: d.offset + d.size <= |m|) && FirstBad(ds, own, m, k)
    ensures var before := DecodeVars(ds[..k], own, m, res);
            DecodeVars(ds, own, m, res) ==
            (before.0, before.1 + [BadValue(ds[k].name, m[ds[k].offset..ds[k].offset + ds[k].size])])
    decreases ds
  {
    hide FromBytes;
    var bad := [BadValue(ds[k].name, m[ds[k].offset..ds[k].offset + ds[k].size])];
    if k == 0 {
      assert ds[..k] == [] && [] + bad == bad;
    } else {
      var d := ds[0];
      assert ds[..k][0] == d && ds[..k][1..] == ds[1..][..k - 1] && !Bad(d, own, m);
      assert FirstBad(ds[1..], own, m, k - 1) by {
        forall j | 0 <= j < k - 1 ensures !Bad(ds[1..][j], own, m) { assert ds[1..][j] == ds[j + 1]; }
      }
      var res1 := if d.name in own then
        res[d.name := FromBytes(TypeOf(own[d.name]), m[d.offset..d.offset + d.size]).value] else res;
      BadValueStops(ds[1..], own, m, res1, k - 1);
      var (r, fs) := DecodeVars(ds[1..][..k - 1], own, m, res1);
      assert ds[1..][k - 1] == ds[k];
      assert [Absent(d.name)] + (fs + bad) == ([Absent(d.name)] + fs) + bad;
    }
  }

  /** With nothing bad, exactly the known variables are read and exactly the others reported. */
  lemma {:induction false} GoodAreRead(ds: seq<VarDesc>, own: Params, m: Message, res: Params, n: string)
    requires (forall d <- ds :: d.offset + d.size <= |m|) && forall d <- ds :: !Bad(d, own, m)
    ensures n in DecodeVars(ds, own, m, res).0 <==> n in res || (n in own && exists d <- ds :: d.name == n)
    ensures Absent(n) in DecodeVars(ds, own, m, res).1 <==> n !in own && exists d <- ds :: d.name == n
    ensures forall x <- DecodeVars(ds, own, m, res).1 :: x.Absent?
    decreases ds
  {
    hide FromBytes;
    if ds != [] {
      var d := ds[0];
      assert ds == [d] + ds[1..] && d in ds && !Bad(d, own, m);
      var res1 := if d.name in own then
        res[d.name := FromBytes(TypeOf(own[d.name]), m[d.offset..d.offset + d.size]).value] else res;
      GoodAreRead(ds[1..], own, m, res1, n);
    }
  }

  /** A message with a bad value hands over nothing if and only if no variable before the first bad one is
      a variable of the block; the block gets all those that are. */
  lemma PartIsKeptIff(ds: seq<VarDesc>, own: Params, m: Message, k: nat)
    requires (forall d <- ds :: d.offset + d.size <= |m|) && FirstBad(ds, own, m, k)
    ensures var got := DecodeVars(ds, own, m, map[]).0;
            && (forall n :: n in got <==> n in own && exists d <- ds[..k] :: d.name == n)
            && (got == map[] <==> forall d <- ds[..k] :: d.name !in own)
  {
    BadValueStops(ds, own, m, map[], k);
    var got := DecodeVars(ds, own, m, map[]).0;
    forall n ensures n in got <==> n in own && exists d <- ds[..k] :: d.name == n {
      GoodAreRead(ds[..k], own, m, map[], n);
    }
    if got == map[] {
      forall d | d in ds[..k] ensures d.name !in own { assert d.name !in got; }
    } else {
      var n :| n in got;
    }
  }

  /** Such a message gets as far as that: any content under a known id and of the right size, stamped with
      a fresh counter, is accepted up to its variables. */
  lemma StampedPartIsKept(r: Receiver, layout: Layout, own: Params, b: Buffer, msg: Message, counter: nat, k: nat)
    requires LayoutFits(layout) && |msg| > 0 && FindBuffer(layout, msg[0]) == Some(b) && Fits(b) && |msg| == b.size
    requires counter % 0x100 != r.counter % 0x100
    requires var m := Stamp(msg, counter);
             (forall d <- b.vars :: d.offset + d.size <= |m|) && FirstBad(b.vars, own, m, k)
    ensures var m := Stamp(msg, counter);
            && |m| > 0
            && var (r1, got) := Accept(r, layout, own, m, map[]);
            && |r1.faults| > 0 && r1.faults[|r1.faults| - 1].BadValue?
            && (got == map[] <==> forall d <- b.vars[..k] :: d.name !in own)
  {
    hide Stamp, SumOf;
    StampVerifies(msg, counter);
    var m := Stamp(msg, counter);
    BadValueStops(b.vars, own, m, map[], k);
    PartIsKeptIff(b.vars, own, m, k);
  }
}
