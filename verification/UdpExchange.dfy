/** The UDP exchange class: what output_vars sends and input_vars accepts, as functions on values. */
module UdpExchange {
  import opened Common
  import opened Values
  import opened Bytes
  import opened Checksum

  datatype VarDesc = VarDesc(name: string, offset: nat, size: nat)

  datatype Buffer = Buffer(id: word16, size: nat, vars: seq<VarDesc>)

  /** A std::map<uint16_t, InetBuffer>: the buffers by ascending id. */
  type Layout = seq<Buffer>

  type Message = seq<byte>

  datatype Fault =
    | NotInBlock(name: string)
    | NotInStore(name: string)
    | WrongVarSize(name: string)
    | UnknownBuffer(id: byte)
    | WrongSize(buffer: word16, size: nat)
    | Repeated
    | WrongSum(expected: word16, received: word16)
    | Absent(name: string)
    | BadValue(name: string, data: seq<byte>)

  /** Room for the header and every variable inside its buffer; the code indexes without checks. */
  predicate Fits(b: Buffer) {
    b.size >= 4 && forall d <- b.vars :: d.offset + d.size <= b.size
  }

  ghost predicate LayoutFits(layout: Layout) {
    forall b <- layout :: Fits(b)
  }

  // ----- output_vars -----

  datatype Sender = Sender(vars: Params, counter: nat, sent: seq<Message>, faults: seq<Fault>)

  datatype Verdict = Done | Rejected(fault: Fault) | Threw(exn: Exn)

  /** The loop state over the variables of one buffer. */
  datatype Fill = Fill(vars: Params, msg: Message, changed: bool, verdict: Verdict)

  /** isChanged || copy_data(...): once something has changed nothing more is copied. */
  function CopyUnlessChanged(stored: Value, current: Value, changed: bool): Outcome<(Value, bool)> {
    if changed then Ok((stored, true)) else CopyData(stored, current)
  }

  function FillOne(d: VarDesc, f: Fill, up: Params): (r: Fill)
    requires d.offset + d.size <= |f.msg|
    ensures |r.msg| == |f.msg|
  {
    if d.name !in up then f.(verdict := Rejected(NotInBlock(d.name)))
    else if d.name !in f.vars then f.(verdict := Rejected(NotInStore(d.name)))
    else
      match CopyUnlessChanged(f.vars[d.name], up[d.name], f.changed)
      case Throw(e) => f.(verdict := Threw(e))
      case Ok(c) =>
        var g := f.(vars := f.vars[d.name := c.0], changed := c.1);
        var bs := ToBytes(c.0);
        if d.size != |bs| then g.(verdict := Rejected(WrongVarSize(d.name))) else g.(msg := Put(f.msg, d.offset, bs))
  }

  function FillVars(ds: seq<VarDesc>, f: Fill, up: Params): (r: Fill)
    requires forall d <- ds :: d.offset + d.size <= |f.msg|
    ensures |r.msg| == |f.msg|
    decreases ds
  {
    if ds == [] || !f.verdict.Done? then f else FillVars(ds[1..], FillOne(ds[0], f, up), up)
  }

  function Blank(b: Buffer): Message
    requires b.size >= 4
  {
    seq(b.size, _ => 0)[0 := b.id % 0x100]
  }

  function FirstWord(m: Message): word16
    requires |m| >= 2
  {
    m[0] as int + 0x100 * m[1] as int
  }

  function SumOf(m: Message): word16
    requires |m| >= 4
  {
    ControlSum(Words(m[4..]), FirstWord(m))
  }

  /** The header: the low byte of the counter, then the checksum, low byte first. */
  function Stamp(msg: Message, counter: nat): Message
    requires |msg| >= 4
  {
    var m := msg[1 := counter % 0x100];
    m[2 := SumOf(m) % 0x100][3 := SumOf(m) / 0x100]
  }

  /** After the walk: a fault is reported, a finished buffer goes out if something changed. */
  function Conclude(s: Sender, f: Fill): (Sender, Outcome<()>)
    requires |f.msg| >= 4
  {
    var s1 := s.(vars := f.vars);
    match f.verdict
    case Threw(e) => (s1, Throw(e))
    case Rejected(fault) => (s1.(faults := s.faults + [fault]), Ok(()))
    case Done =>
      if f.changed then (s1.(counter := s.counter + 1, sent := s.sent + [Stamp(f.msg, s.counter + 1)]), Ok(()))
      else (s1, Ok(()))
  }

  function OutputBuffer(s: Sender, b: Buffer, up: Params): (Sender, Outcome<()>)
    requires Fits(b)
  {
    Conclude(s, FillVars(b.vars, Fill(s.vars, Blank(b), false, Done), up))
  }

  /** output_vars: the class state and the messages sent; it always returns no variables. */
  function Output(s: Sender, layout: Layout, up: Params): (Sender, Outcome<()>)
    requires LayoutFits(layout)
    decreases layout
  {
    if layout == [] then (s, Ok(()))
    else
      var (s1, o) := OutputBuffer(s, layout[0], up);
      if o.Throw? then (s1, o) else Output(s1, layout[1..], up)
  }

  // ----- input_vars -----

  datatype Receiver = Receiver(counter: nat, faults: seq<Fault>)

  function FindBuffer(layout: Layout, id: int): Option<Buffer> {
    if layout == [] then None
    else if layout[0].id == id then Some(layout[0])
    else FindBuffer(layout[1..], id)
  }

  lemma {:induction false} FoundFits(layout: Layout, id: int)
    ensures FindBuffer(layout, id).Some? ==>
              FindBuffer(layout, id).value in layout && FindBuffer(layout, id).value.id == id
    decreases layout
  {
    if layout != [] { FoundFits(layout[1..], id); }
  }

  /** The variables of an accepted message; an absent variable is skipped, a bad value ends the walk
      and leaves what was read before it. */
  function DecodeVars(ds: seq<VarDesc>, own: Params, m: Message, res: Params): (Params, seq<Fault>)
    requires forall d <- ds :: d.offset + d.size <= |m|
    decreases ds
  {
    if ds == [] then (res, [])
    else
      var d := ds[0];
      var data := m[d.offset..d.offset + d.size];
      if d.name !in own then
        var (r, fs) := DecodeVars(ds[1..], own, m, res);
        (r, [Absent(d.name)] + fs)
      else
        match FromBytes(TypeOf(own[d.name]), data)
        case None => (res, [BadValue(d.name, data)])
        case Some(v) => DecodeVars(ds[1..], own, m, res[d.name := v])
  }

  /** One message of input_vars; res collects the variables read so far. */
  function Accept(r: Receiver, layout: Layout, own: Params, m: Message, res: Params): (Receiver, Params)
    requires LayoutFits(layout) && |m| > 0
  {
    FoundFits(layout, m[0]);
    match FindBuffer(layout, m[0])
    case None => (r.(faults := r.faults + [UnknownBuffer(m[0])]), res)
    case Some(b) =>
      assert Fits(b);
      if |m| != b.size then (r.(faults := r.faults + [WrongSize(b.id, |m|)]), res)
      else if r.counter % 0x100 == m[1] then (r.(faults := r.faults + [Repeated]), res)
      else
        var r1 := r.(counter := m[1]);
        var sum := m[2] as int + 0x100 * m[3] as int;
        if SumOf(m) != sum then (r1.(faults := r.faults + [WrongSum(SumOf(m), sum)]), res)
        else
          var (res1, fs) := DecodeVars(b.vars, own, m, res);
          (r1.(faults := r.faults + fs), res1)
  }

  /** The queue drops empty messages. */
  ghost predicate NoneEmpty(ms: seq<Message>) {
    forall i | 0 <= i < |ms| :: |ms[i]| > 0
  }

  function AcceptAll(r: Receiver, layout: Layout, own: Params, ms: seq<Message>, res: Params): (Receiver, Params)
    requires LayoutFits(layout) && NoneEmpty(ms)
    decreases ms
  {
    if ms == [] then (r, res)
    else
      var (r1, res1) := Accept(r, layout, own, ms[0], res);
      AcceptAll(r1, layout, own, ms[1..], res1)
  }

  /** input_vars on the messages taken from the queue. */
  function Input(r: Receiver, layout: Layout, own: Params, ms: seq<Message>): (Receiver, Params)
    requires LayoutFits(layout) && NoneEmpty(ms)
  {
    AcceptAll(r, layout, own, ms, map[])
  }
}
