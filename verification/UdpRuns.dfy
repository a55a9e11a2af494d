/** Runs of the exchange: batching, sequence numbers, and the mirror a lossless run keeps. */
module UdpRuns {
  import opened Common
  import opened Values
  import opened Checksum
  import opened UdpExchange
  import opened UdpDelivery

  // ----- what was read before does not matter -----

  lemma {:induction false} DecodeFrom(ds: seq<VarDesc>, own: Params, m: Message, a: Params, b: Params)
    requires forall d <- ds :: d.offset + d.size <= |m|
    ensures DecodeVars(ds, own, m, a + b).0 == a + DecodeVars(ds, own, m, b).0
    ensures DecodeVars(ds, own, m, a + b).1 == DecodeVars(ds, own, m, b).1
    decreases ds
  {
    if ds != [] {
      var d := ds[0];
      if d.name !in own {
        DecodeFrom(ds[1..], own, m, a, b);
      } else {
        var v := FromBytes(TypeOf(own[d.name]), m[d.offset..d.offset + d.size]);
        if v.Some? {
          assert (a + b)[d.name := v.value] == a + b[d.name := v.value];
          DecodeFrom(ds[1..], own, m, a, b[d.name := v.value]);
        }
      }
    }
  }

  lemma AcceptFrom(r: Receiver, layout: Layout, own: Params, m: Message, a: Params, b: Params)
    requires LayoutFits(layout) && |m| > 0
    ensures Accept(r, layout, own, m, a + b) == (Accept(r, layout, own, m, b).0, a + Accept(r, layout, own, m, b).1)
  {
    FoundFits(layout, m[0]);
    var b0 := FindBuffer(layout, m[0]);
    if b0.Some? && |m| == b0.value.size {
      assert Fits(b0.value);
      DecodeFrom(b0.value.vars, own, m, a, b);
    }
  }

  lemma {:induction false} AcceptAllFrom(r: Receiver, layout: Layout, own: Params, ms: seq<Message>, a: Params,
                                         b: Params)
    requires LayoutFits(layout) && NoneEmpty(ms)
    ensures AcceptAll(r, layout, own, ms, a + b) ==
            (AcceptAll(r, layout, own, ms, b).0, a + AcceptAll(r, layout, own, ms, b).1)
    decreases ms
  {
    if ms != [] {
      AcceptFrom(r, layout, own, ms[0], a, b);
      var (r1, b1) := Accept(r, layout, own, ms[0], b);
      AcceptAllFrom(r1, layout, own, ms[1..], a, b1);
    }
  }

  lemma {:induction false} AcceptAllConcat(r: Receiver, layout: Layout, own: Params, ms: seq<Message>,
          ns: seq<Message>, res: Params)
    requires LayoutFits(layout) && NoneEmpty(ms) && NoneEmpty(ns)
    ensures NoneEmpty(ms + ns)
    ensures var (r1, res1) := AcceptAll(r, layout, own, ms, res);
            AcceptAll(r, layout, own, ms + ns, res) == AcceptAll(r1, layout, own, ns, res1)
    decreases ms
  {
    if ms == [] {
      assert ms + ns == ns;
    } else {
      var (r1, res1) := Accept(r, layout, own, ms[0], res);
      AcceptAllConcat(r1, layout, own, ms[1..], ns, res1);
      assert (ms + ns)[1..] == ms[1..] + ns;
    }
  }

  // ----- queueing and polling -----

  /** A message reaches the queue from the network thread, or the engine runs input_vars. */
  datatype Event = Arrive(m: Message) | Poll

  /** The queue, the class, and the variables handed to the block so far, later ones on top. */
  datatype Link = Link(queue: seq<Message>, receiver: Receiver, got: Params)

  function Happen(l: Link, layout: Layout, own: Params, e: Event): (r: Link)
    requires LayoutFits(layout) && NoneEmpty(l.queue)
    ensures NoneEmpty(r.queue)
  {
    match e
    case Arrive(m) => if |m| > 0 then l.(queue := l.queue + [m]) else l
    case Poll =>
      var (r, res) := Input(l.receiver, layout, own, l.queue);
      Link([], r, l.got + res)
  }

  function Unfold(l: Link, layout: Layout, own: Params, es: seq<Event>): (r: Link)
    requires LayoutFits(layout) && NoneEmpty(l.queue)
    ensures NoneEmpty(r.queue)
  {
    if es == [] then l else Happen(Unfold(l, layout, own, es[..|es| - 1]), layout, own, es[|es| - 1])
  }

  function Arrivals(es: seq<Event>): (ms: seq<Message>)
    ensures NoneEmpty(ms)
  {
    if es == [] then []
    else
      var e := es[|es| - 1];
      Arrivals(es[..|es| - 1]) + if e.Arrive? && |e.m| > 0 then [e.m] else []
  }

  lemma PollOnce(l: Link, layout: Layout, own: Params, r0: Receiver, got0: Params, done: seq<Message>)
    requires LayoutFits(layout) && NoneEmpty(l.queue) && NoneEmpty(done)
    requires (l.receiver, l.got) == AcceptAll(r0, layout, own, done, got0)
    ensures NoneEmpty(done + l.queue)
    ensures var p := Happen(l, layout, own, Poll);
            (p.receiver, p.got) == AcceptAll(r0, layout, own, done + l.queue, got0)
  {
    AcceptAllConcat(r0, layout, own, done, l.queue, got0);
    AcceptAllFrom(l.receiver, layout, own, l.queue, l.got, map[]);
    assert l.got + map[] == l.got;
  }

  /** However arrivals and polls interleave, the queue is the unread rest of what arrived, and the
      class and the variables are those of reading the others one by one in order of arrival. */
  lemma {:induction false} PollingIsTransparent(l: Link, layout: Layout, own: Params,
          es: seq<Event>) returns (done: seq<Message>)
    requires LayoutFits(layout) && NoneEmpty(l.queue)
    ensures var l1 := Unfold(l, layout, own, es);
            && done + l1.queue == l.queue + Arrivals(es) && NoneEmpty(done)
            && (l1.receiver, l1.got) == AcceptAll(l.receiver, layout, own, done, l.got)
    decreases |es|
  {
    if es == [] {
      done := [];
    } else {
      done := PollingIsTransparent(l, layout, own, es[..|es| - 1]);
      var l1, e := Unfold(l, layout, own, es[..|es| - 1]), es[|es| - 1];
      if e.Poll? {
        PollOnce(l1, layout, own, l.receiver, l.got, done);
        done := done + l1.queue;
        assert done + [] == l.queue + Arrivals(es);
      } else if |e.m| > 0 {
        assert done + (l1.queue + [e.m]) == (done + l1.queue) + [e.m];
        assert l.queue + (Arrivals(es[..|es| - 1]) + [e.m]) == (l.queue + Arrivals(es[..|es| - 1])) + [e.m];
      } else {
        assert Arrivals(es) == Arrivals(es[..|es| - 1]);
      }
    }
  }

  // ----- sequence numbers -----

  /** The receiver knows the buffer, and the size is right. */
  predicate WellSized(layout: Layout, m: Message) {
    |m| > 0 && FindBuffer(layout, m[0]).Some? && FindBuffer(layout, m[0]).value.size == |m|
  }

  /** Message number j carries the low byte of j. */
  ghost predicate Numbered(layout: Layout, ms: seq<Message>, js: seq<nat>)
    requires LayoutFits(layout)
  {
    |ms| == |js| && forall k | 0 <= k < |ms| :: NumberedOne(layout, ms[k], js[k])
  }

  predicate NumberedOne(layout: Layout, m: Message, j: nat) {
    WellSized(layout, m) && |m| > 1 && m[1] == j % 0x100
  }

  /** The message that set the counter last, message i before all of js. */
  function LastSet(i: nat, js: seq<nat>): nat {
    if js == [] then i
    else
      var k, j := LastSet(i, js[..|js| - 1]), js[|js| - 1];
      if (j - k) % 0x100 == 0 then k else j
  }

  predicate Refused(r: Receiver, layout: Layout, own: Params, m: Message)
    requires LayoutFits(layout) && |m| > 0
  {
    Accept(r, layout, own, m, map[]).0.faults == r.faults + [Repeated]
  }

  lemma {:induction false} DecodeNeverRepeats(ds: seq<VarDesc>, own: Params, m: Message, res: Params)
    requires forall d <- ds :: d.offset + d.size <= |m|
    ensures Repeated !in DecodeVars(ds, own, m, res).1
    decreases ds
  {
    if ds != [] {
      var d := ds[0];
      if d.name !in own {
        DecodeNeverRepeats(ds[1..], own, m, res);
      } else {
        var v := FromBytes(TypeOf(own[d.name]), m[d.offset..d.offset + d.size]);
        if v.Some? { DecodeNeverRepeats(ds[1..], own, m, res[d.name := v.value]); }
      }
    }
  }

  lemma RefusedByCounter(r: Receiver, layout: Layout, own: Params, m: Message, res: Params)
    requires LayoutFits(layout) && WellSized(layout, m)
    ensures |m| >= 4
    ensures Refused(r, layout, own, m) <==> r.counter % 0x100 == m[1]
    ensures Accept(r, layout, own, m, res).0.counter % 0x100 == m[1]
    ensures Refused(r, layout, own, m) ==> Accept(r, layout, own, m, res) == (r.(faults := r.faults + [Repeated]), res)
  {
    FoundFits(layout, m[0]);
    var b := FindBuffer(layout, m[0]).value;
    assert Fits(b);
    DecodeNeverRepeats(b.vars, own, m, map[]);
    var fs := DecodeVars(b.vars, own, m, map[]).1;
    assert r.faults + fs == r.faults + [Repeated] ==> fs == [Repeated] by {
      if r.faults + fs == r.faults + [Repeated] {
        assert (r.faults + fs)[|r.faults|..] == fs && (r.faults + [Repeated])[|r.faults|..] == [Repeated];
      }
    }
    if r.counter % 0x100 != m[1] && SumOf(m) != m[2] as int + 0x100 * m[3] as int {
      var w := WrongSum(SumOf(m), m[2] as int + 0x100 * m[3] as int);
      assert (r.faults + [w])[|r.faults|] != (r.faults + [Repeated])[|r.faults|];
    }
  }

  lemma AcceptAllSnoc(r: Receiver, layout: Layout, own: Params, ms: seq<Message>, res: Params)
    requires LayoutFits(layout) && NoneEmpty(ms) && ms != []
    ensures NoneEmpty(ms[..|ms| - 1]) && |ms[|ms| - 1]| > 0
    ensures var (r1, res1) := AcceptAll(r, layout, own, ms[..|ms| - 1], res);
            AcceptAll(r, layout, own, ms, res) == Accept(r1, layout, own, ms[|ms| - 1], res1)
  {
    var init, last := ms[..|ms| - 1], ms[|ms| - 1];
    assert ms == init + [last] && NoneEmpty([last]);
    AcceptAllConcat(r, layout, own, init, [last], res);
  }

  /** The counter is congruent to the number of the last message that set it. */
  lemma {:induction false} CounterTracks(r: Receiver, i: nat, layout: Layout, own: Params, ms: seq<Message>,
          js: seq<nat>, res: Params)
    requires LayoutFits(layout) && Numbered(layout, ms, js) && NoneEmpty(ms)
    requires r.counter % 0x100 == i % 0x100
    ensures AcceptAll(r, layout, own, ms, res).0.counter % 0x100 == LastSet(i, js) % 0x100
    decreases |ms|
  {
    if ms != [] {
      var n := |ms| - 1;
      AcceptAllSnoc(r, layout, own, ms, res);
      CounterTracks(r, i, layout, own, ms[..n], js[..n], res);
      assert NumberedOne(layout, ms[n], js[n]);
      var (r1, res1) := AcceptAll(r, layout, own, ms[..n], res);
      RefusedByCounter(r1, layout, own, ms[n], res1);
      Congruent(js[n], LastSet(i, js[..n]));
    }
  }

  lemma Congruent(a: nat, b: nat)
    ensures (a - b) % 0x100 == 0 <==> a % 0x100 == b % 0x100
  {
  }

  /** Message j, arriving after any history, is refused by the sequence check exactly when 256 divides
      its distance from the last message that set the counter. */
  lemma RefusedIffDivides(r: Receiver, i: nat, layout: Layout, own: Params, ms: seq<Message>, js: seq<nat>, m: Message,
          j: nat, res: Params)
    requires LayoutFits(layout) && Numbered(layout, ms, js) && NoneEmpty(ms) && NumberedOne(layout, m, j)
    requires r.counter % 0x100 == i % 0x100
    ensures Refused(AcceptAll(r, layout, own, ms, res).0, layout, own, m) <==> (j - LastSet(i, js)) % 0x100 == 0
  {
    CounterTracks(r, i, layout, own, ms, js, res);
    RefusedByCounter(AcceptAll(r, layout, own, ms, res).0, layout, own, m, res);
    Congruent(j, LastSet(i, js));
  }

  function Following(i: nat, n: nat): (js: seq<nat>)
    ensures |js| == n
  {
    seq(n, k requires 0 <= k => i + 1 + k)
  }

  lemma {:induction false} InOrderLast(i: nat, n: nat)
    ensures LastSet(i, Following(i, n)) == i + n
    decreases n
  {
    if n > 0 {
      InOrderLast(i, n - 1);
      assert Following(i, n)[..n - 1] == Following(i, n - 1);
    }
  }

  /** Lossless delivery in order passes the sequence check for ever. */
  lemma InOrderPasses(r: Receiver, i: nat, layout: Layout, own: Params, ms: seq<Message>, m: Message, res: Params)
    requires LayoutFits(layout) && NoneEmpty(ms) && r.counter % 0x100 == i % 0x100
    requires Numbered(layout, ms, Following(i, |ms|)) && NumberedOne(layout, m, i + |ms| + 1)
    ensures !Refused(AcceptAll(r, layout, own, ms, res).0, layout, own, m)
  {
    InOrderLast(i, |ms|);
    RefusedIffDivides(r, i, layout, own, ms, Following(i, |ms|), m, i + |ms| + 1, res);
  }

  /** An immediate repeat changes neither the counter nor the variables. */
  lemma RepeatIsIdle(r: Receiver, layout: Layout, own: Params, m: Message, res: Params)
    requires LayoutFits(layout) && WellSized(layout, m)
    ensures var (r1, res1) := Accept(r, layout, own, m, res);
            Accept(r1, layout, own, m, res1) == (r1.(faults := r1.faults + [Repeated]), res1)
  {
    var (r1, res1) := Accept(r, layout, own, m, res);
    RefusedByCounter(r, layout, own, m, res);
    RefusedByCounter(r1, layout, own, m, res1);
  }

  /** A receiver that joins late loses the messages whose number is a multiple of 256: its counter
      starts at zero. */
  lemma FreshRefusesMultiples(layout: Layout, own: Params, m: Message, j: nat)
    requires LayoutFits(layout) && NumberedOne(layout, m, j)
    ensures Refused(Receiver(0, []), layout, own, m) <==> j % 0x100 == 0
  {
    RefusedByCounter(Receiver(0, []), layout, own, m, map[]);
  }
}
