/** Messages that are turned away: what each check of input_vars leaves behind, the checksum told on the
    bytes of a message, and which damage it notices. */
module UdpDamage {
  import opened Common
  import opened Values
  import opened Bytes
  import opened Checksum
  import opened UdpExchange
  import opened UdpDelivery
  import opened UdpRuns

  // ----- the checksum on the wire -----

  /** The bytes from the fifth to the n-th added up, those at odd places 256 times. */
  function BytesTotal(m: Message, n: nat): nat
    requires n <= |m|
  {
    if n <= 4 then 0 else BytesTotal(m, n - 1) + (if (n - 1) % 2 == 0 then m[n - 1] as int else 0x100 * m[n - 1] as int)
  }

  /** The checksum of a message, on its bytes: identifier and counter make the first word, low byte first;
      what stands behind the header is added to it modulo 65535, an odd last byte not at all.  Where the
      first word is zero, the word after the header takes its place, a zero counted as one. */
  function WireSum(m: Message): int
    requires |m| >= 4
  {
    var first := m[0] as int + 0x100 * m[1] as int;
    var even := |m| - |m| % 2;
    var total := BytesTotal(m, even);
    if first != 0 then (first + total - 1) % 0xFFFF + 1
    else if even == 4 then 0
    else if m[4] == 0 && m[5] == 0 then total % 0xFFFF + 1
    else (total - 1) % 0xFFFF + 1
  }

  /** The checksum that the header carries. */
  function SumCarried(m: Message): int
    requires |m| >= 4
  {
    m[2] as int + 0x100 * m[3] as int
  }

  lemma {:induction false} WordsTotal(m: Message, k: nat)
    requires |m| >= 4 && k <= (|m| - 4) / 2
    ensures Total(Words(m[4..])[..k]) == BytesTotal(m, 4 + 2 * k)
    decreases k
  {
    if k > 0 {
      var ws, bs := Words(m[4..]), m[4..];
      WordsTotal(m, k - 1);
      assert ws[..k][..k - 1] == ws[..k - 1];
      assert ws[k - 1] == bs[2 * (k - 1)] as int + 0x100 * bs[2 * (k - 1) + 1] as int;
      assert BytesTotal(m, 4 + 2 * k) == BytesTotal(m, 4 + 2 * k - 1) + 0x100 * m[4 + 2 * k - 1] as int;
      assert BytesTotal(m, 4 + 2 * k - 1) == BytesTotal(m, 4 + 2 * k - 2) + m[4 + 2 * k - 2] as int;
    }
  }

  /** Under a zero initial word, with the total of all words. */
  lemma SumFromZero(ws: seq<word16>)
    requires ws != []
    ensures ControlSum(ws, 0) == if ws[0] == 0 then Total(ws) % 0xFFFF + 1 else (Total(ws) - 1) % 0xFFFF + 1
  {
    hide ControlSum, Total;
    ZeroInitial(ws);
    ClosedForm(ws[1..], if ws[0] == 0 then 1 else ws[0]);
    TotalOfRemove(ws, 0);
    assert ws[..0] + ws[1..] == ws[1..];
  }

  lemma EvenPart(n: nat)
    requires n >= 4
    ensures 4 + 2 * ((n - 4) / 2) == n - n % 2
  {
  }

  lemma AllWordsTotal(m: Message)
    requires |m| >= 4
    ensures Total(Words(m[4..])) == BytesTotal(m, |m| - |m| % 2)
  {
    hide Total, BytesTotal;
    var ws, n := Words(m[4..]), (|m| - 4) / 2;
    assert |m[4..]| == |m| - 4 && |ws| == n;
    WordsTotal(m, n);
    assert ws[..n] == ws;
    EvenPart(|m|);
  }

  /** Sender and receiver compute exactly that. */
  lemma SumIsWireSum(m: Message)
    requires |m| >= 4
    ensures SumOf(m) == WireSum(m)
  {
    hide ControlSum, Total, BytesTotal;
    var ws := Words(m[4..]);
    AllWordsTotal(m);
    if FirstWord(m) != 0 {
      ClosedForm(ws, FirstWord(m));
    } else if ws != [] {
      SumFromZero(ws);
      assert ws[0] == m[4] as int + 0x100 * m[5] as int;
    } else {
      assert ControlSum(ws, 0) == 0 by { NeverZero(ws, 0); }
    }
  }

  /** A message on the wire: identifier, counter, checksum low byte first, the bytes of each stored variable
      in its region, and zeros everywhere else. */
  lemma SentOnWire(s: Sender, b: Buffer, up: Params) returns (m: Message)
    requires Sound(b) && Sends(s, b, up)
    ensures var s1 := OutputBuffer(s, b, up).0;
            && s1.sent == s.sent + [m] && |m| == b.size && m[0] == b.id && m[1] == (s.counter + 1) % 0x100
            && SumCarried(m) == WireSum(m)
            && (forall k | 0 <= k < |b.vars| :: Readable(b.vars[k], m, s1.vars, s1.vars))
            && forall i | 4 <= i < |m| && Between(b, i) :: m[i] == 0
  {
    hide OutputBuffer, Readable, SumOf, WireSum, Filled, Stamp;
    m := SentMessage(s, b, up);
    SumIsWireSum(m);
    SentIsStamped(s, b, up);
    var f := Filled(s, b, up);
    assert m == Stamp(f.msg, s.counter + 1) by {
      assert (s.sent + [m])[|s.sent|] == (s.sent + [Stamp(f.msg, s.counter + 1)])[|s.sent|];
    }
    forall i | 4 <= i < |m| && Between(b, i) ensures m[i] == 0 { PaddedWithZeros(s, b, up, i); }
  }

  lemma PaddedWithZeros(s: Sender, b: Buffer, up: Params, i: nat)
    requires Fits(b) && 4 <= i < b.size && Between(b, i)
    ensures var f := Filled(s, b, up); |f.msg| == b.size && Stamp(f.msg, s.counter + 1)[i] == 0
  {
    hide FillVars, SumOf;
    var f := Filled(s, b, up);
    FillsInside(b.vars, Fill(s.vars, Blank(b), false, Done), up, i);
    StampVerifies(f.msg, s.counter + 1);
    assert Stamp(f.msg, s.counter + 1)[4..][i - 4] == f.msg[4..][i - 4];
  }

  /** Byte i belongs to no variable. */
  ghost predicate Between(b: Buffer, i: nat) {
    forall d <- b.vars :: i < d.offset || d.offset + d.size <= i
  }

  lemma {:induction false} FillsInside(ds: seq<VarDesc>, f: Fill, up: Params, i: nat)
    requires (forall d <- ds :: d.offset + d.size <= |f.msg|) && i < |f.msg|
    requires forall d <- ds :: i < d.offset || d.offset + d.size <= i
    ensures FillVars(ds, f, up).msg[i] == f.msg[i]
    decreases ds
  {
    if ds != [] && f.verdict.Done? {
      var d, g := ds[0], FillOne(ds[0], f, up);
      if g.msg != f.msg { PutAt(f.msg, d.offset, ToBytes(g.vars[d.name]), i); }
      FillsInside(ds[1..], g, up, i);
    }
  }

  // ----- the checks of input_vars -----

  /** What a message leaves behind that does not get as far as its variables. */
  lemma TurnedAway(r: Receiver, layout: Layout, own: Params, m: Message, res: Params)
    requires LayoutFits(layout) && |m| > 0
    ensures var b := FindBuffer(layout, m[0]);
            && (b.None? ==> Accept(r, layout, own, m, res) == (r.(faults := r.faults + [UnknownBuffer(m[0])]), res))
            && (b.Some? && |m| != b.value.size ==>
                  Accept(r, layout, own, m, res) == (r.(faults := r.faults + [WrongSize(m[0] as int, |m|)]), res))
            && (b.Some? && |m| == b.value.size ==>
                  && |m| >= 4
                  && (m[1] == r.counter % 0x100 ==>
                        Accept(r, layout, own, m, res) == (r.(faults := r.faults + [Repeated]), res))
                  && (m[1] != r.counter % 0x100 && SumCarried(m) != WireSum(m) ==>
                        Accept(r, layout, own, m, res) ==
                        (Receiver(m[1] as int, r.faults + [WrongSum(WireSum(m), SumCarried(m))]), res)))
  {
    FoundFits(layout, m[0]);
    var b := FindBuffer(layout, m[0]);
    if b.Some? {
      assert Fits(b.value);
      if |m| == b.value.size { SumIsWireSum(m); }
    }
  }

  /** And one that gets there: exactly the walk over its variables, from a counter set to its own. */
  lemma LetThrough(r: Receiver, layout: Layout, own: Params, m: Message, res: Params)
    requires LayoutFits(layout) && |m| > 0 && FindBuffer(layout, m[0]).Some?
    requires |m| == FindBuffer(layout, m[0]).value.size && |m| >= 4
    requires m[1] != r.counter % 0x100 && SumCarried(m) == WireSum(m)
    ensures var ds := FindBuffer(layout, m[0]).value.vars;
            && (forall d <- ds :: d.offset + d.size <= |m|)
            && Accept(r, layout, own, m, res) ==
               (Receiver(m[1] as int, r.faults + DecodeVars(ds, own, m, res).1), DecodeVars(ds, own, m, res).0)
  {
    FoundFits(layout, m[0]);
    assert Fits(FindBuffer(layout, m[0]).value);
    SumIsWireSum(m);
  }

  /** A damaged message among others: what is read is what is read of the others, from a receiver that has
      seen its counter. */
  lemma DamagedIsSkipped(r: Receiver, layout: Layout, own: Params, pre: seq<Message>, m: Message, post: seq<Message>)
    requires LayoutFits(layout) && NoneEmpty(pre) && NoneEmpty(post) && |m| > 0
    requires FindBuffer(layout, m[0]).Some? && |m| == FindBuffer(layout, m[0]).value.size && |m| >= 4
    requires SumCarried(m) != WireSum(m) && m[1] != AcceptAll(r, layout, own, pre, map[]).0.counter % 0x100
    ensures NoneEmpty(pre + [m] + post)
    ensures var (r1, got1) := AcceptAll(r, layout, own, pre, map[]);
            Input(r, layout, own, pre + [m] + post) ==
            AcceptAll(Receiver(m[1] as int, r1.faults + [WrongSum(WireSum(m), SumCarried(m))]), layout, own, post, got1)
  {
    var (r1, got1) := AcceptAll(r, layout, own, pre, map[]);
    assert NoneEmpty([m]);
    AcceptAllConcat(r, layout, own, pre, [m], map[]);
    AcceptAllConcat(r, layout, own, pre + [m], post, map[]);
    TurnedAway(r1, layout, own, m, got1);
    assert AcceptAll(r1, layout, own, [m], got1) == Accept(r1, layout, own, m, got1);
  }

  // ----- damage to one word -----

  /** Word k behind the header replaced. */
  function Damaged(m: Message, k: nat, lo: byte, hi: byte): (d: Message)
    requires 4 + 2 * k + 1 < |m|
    ensures |d| == |m|
  {
    m[4 + 2 * k := lo][4 + 2 * k + 1 := hi]
  }

  lemma DamagedWords(m: Message, k: nat, lo: byte, hi: byte)
    requires 4 + 2 * k + 1 < |m|
    ensures var d := Damaged(m, k, lo, hi);
            && k < |Words(m[4..])| && FirstWord(d) == FirstWord(m) && SumCarried(d) == SumCarried(m)
            && Words(m[4..])[k] == m[4 + 2 * k] as int + 0x100 * m[5 + 2 * k] as int
            && Words(d[4..]) == Words(m[4..])[k := lo as int + 0x100 * hi as int]
  {
    var d := Damaged(m, k, lo, hi);
    var ws, vs := Words(m[4..]), Words(d[4..]);
    forall i | 0 <= i < |vs| ensures vs[i] == ws[k := lo as int + 0x100 * hi as int][i] {
      assert d[4..][2 * i] == d[4 + 2 * i] && d[4..][2 * i + 1] == d[5 + 2 * i];
    }
  }

  /** The swaps of a word that the checksum does not see. */
  predicate Unseen(m: Message, k: nat, lo: byte, hi: byte)
    requires 4 + 2 * k + 1 < |m|
  {
    var was, now := m[4 + 2 * k] as int + 0x100 * m[5 + 2 * k] as int, lo as int + 0x100 * hi as int;
    {was, now} == if m[0] == 0 && m[1] == 0 && k == 0 then {0, 1} else {0, 0xFFFF}
  }

  /** Damage to one word behind the header of a sent message: unless it is one of those swaps the receiver
      turns the message away, hands over nothing of it and notes one fault; and those swaps it does let
      through to the variables. */
  lemma DamageIsNoticedIff(s: Sender, b: Buffer, up: Params, m: Message, k: nat, lo: byte, hi: byte, r: Receiver,
                           layout: Layout, own: Params, res: Params)
    requires Sound(b) && Sends(s, b, up) && OutputBuffer(s, b, up).0.sent == s.sent + [m] && |m| == b.size
    requires 4 + 2 * k + 1 < |m| && (lo != m[4 + 2 * k] || hi != m[5 + 2 * k])
    requires LayoutFits(layout) && FindBuffer(layout, b.id) == Some(b)
    requires r.counter % 0x100 != (s.counter + 1) % 0x100
    ensures var d := Damaged(m, k, lo, hi);
            && (!Unseen(m, k, lo, hi) ==>
                  Accept(r, layout, own, d, res) ==
                  (Receiver(d[1] as int, r.faults + [WrongSum(WireSum(d), SumCarried(d))]), res))
            && (Unseen(m, k, lo, hi) ==>
                  Accept(r, layout, own, d, res) ==
                  (Receiver(d[1] as int, r.faults + DecodeVars(b.vars, own, d, res).1),
                   DecodeVars(b.vars, own, d, res).0))
  {
    hide OutputBuffer, WireSum, Words, ControlSum, DecodeVars, Accept;
    var sent := SentOnWire(s, b, up);
    assert (s.sent + [sent])[|s.sent|] == (s.sent + [m])[|s.sent|];
    var d := Damaged(m, k, lo, hi);
    SumIsWireSum(m);
    SumIsWireSum(d);
    DamagedWords(m, k, lo, hi);
    WordChangeIff(Words(m[4..]), FirstWord(m), k, lo as int + 0x100 * hi as int);
    assert SumOf(d) == SumOf(m) <==> Unseen(m, k, lo, hi);
    if Unseen(m, k, lo, hi) { LetThrough(r, layout, own, d, res); } else { TurnedAway(r, layout, own, d, res); }
  }
}
