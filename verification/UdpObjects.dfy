/** The exchange class and its message queue as objects that change in place. */
module UdpObjects {
  import opened Common
  import opened Values
  import opened Bytes
  import opened Checksum
  import opened UdpExchange

  /** The list between the network thread and the engine; its mutex makes each method one step. */
  class MessageQueue {
    var msgs: seq<Message>

    constructor ()
      ensures msgs == []
    {
      msgs := [];
    }

    method AddMessage(m: Message)
      modifies this
      ensures msgs == if |m| > 0 then old(msgs) + [m] else old(msgs)
    {
      if |m| > 0 { msgs := msgs + [m]; }
    }

    method GetMessages() returns (res: seq<Message>)
      modifies this
      ensures res == old(msgs) && msgs == []
    {
      res, msgs := msgs, [];
    }
  }

  class Exchange {
    const layout: Layout
    const queue: MessageQueue
    var vars: Params
    var inCounter: nat
    var outCounter: nat
    var faults: seq<Fault>
    var sent: seq<Message>

    constructor (layout: Layout, queue: MessageQueue, vars: Params)
      ensures this.layout == layout && this.queue == queue
      ensures AsSender() == Sender(vars, 0, [], []) && AsReceiver() == Receiver(0, [])
    {
      this.layout, this.queue, this.vars := layout, queue, vars;
      inCounter, outCounter, faults, sent := 0, 0, [], [];
    }

    function AsSender(): Sender
      reads this
    {
      Sender(vars, outCounter, sent, faults)
    }

    function AsReceiver(): Receiver
      reads this
    {
      Receiver(inCounter, faults)
    }

    // ----- output_vars -----

    /** One variable of a buffer. */
    method FillVar(d: VarDesc, up: Params, msg: array<byte>, changed: bool) returns (changed': bool, verdict: Verdict)
      requires d.offset + d.size <= msg.Length
      modifies this`vars, msg
      ensures Fill(vars, msg[..], changed', verdict) == FillOne(d, Fill(old(vars), old(msg[..]), changed, Done), up)
    {
      changed', verdict := changed, Done;
      if d.name !in up { return changed', Rejected(NotInBlock(d.name)); }
      if d.name !in vars { return changed', Rejected(NotInStore(d.name)); }
      if !changed' {
        match CopyData(vars[d.name], up[d.name]) {
          case Throw(e) => return changed', Threw(e);
          case Ok(c) =>
            vars := vars[d.name := c.0];
            changed' := c.1;
        }
      }
      assert vars == vars[d.name := vars[d.name]];
      var bs := ToBytes(vars[d.name]);
      if d.size != |bs| { return changed', Rejected(WrongVarSize(d.name)); }
      CopyInto(msg, d.offset, bs);
    }

    method FillBuffer(b: Buffer, up: Params, msg: array<byte>) returns (changed: bool, verdict: Verdict)
      requires Fits(b) && msg.Length == b.size
      modifies this`vars, msg
      ensures Fill(vars, msg[..], changed, verdict) == FillVars(b.vars, Fill(old(vars), old(msg[..]), false, Done), up)
    {
      changed, verdict := false, Done;
      for i := 0 to |b.vars|
        invariant verdict.Done?
        invariant FillVars(b.vars[i..], Fill(vars, msg[..], changed, verdict), up) ==
                  FillVars(b.vars, Fill(old(vars), old(msg[..]), false, Done), up)
      {
        assert b.vars[i..][0] == b.vars[i] && b.vars[i..][1..] == b.vars[i + 1..];
        changed, verdict := FillVar(b.vars[i], up, msg, changed);
        if !verdict.Done? { return; }
      }
    }

    /** The header of a finished message. */
    method StampMessage(msg: array<byte>, counter: nat)
      requires msg.Length >= 4
      modifies msg
      ensures msg[..] == Stamp(old(msg[..]), counter)
    {
      msg[1] := counter % 0x100;
      var cs := CalcControlSum(msg[4..], msg[0] as int + 0x100 * msg[1] as int);
      assert msg[..] == old(msg[..])[1 := counter % 0x100] && msg[..][4..] == msg[4..];
      msg[2] := cs % 0x100;
      msg[3] := cs / 0x100;
    }

    /** The end of a buffer's turn. */
    method ConcludeBuffer(msg: array<byte>, changed: bool, verdict: Verdict) returns (o: Outcome<()>)
      requires msg.Length >= 4
      modifies this`outCounter, this`faults, this`sent, msg
      ensures (AsSender(), o) == Conclude(old(AsSender()), Fill(vars, old(msg[..]), changed, verdict))
    {
      match verdict {
        case Threw(e) => return Throw(e);
        case Rejected(fault) => faults := faults + [fault];
        case Done =>
          if changed {
            outCounter := outCounter + 1;
            StampMessage(msg, outCounter);
            sent := sent + [msg[..]];
          }
      }
      return Ok(());
    }

    /** One buffer of output_vars. */
    method SendBuffer(b: Buffer, up: Params) returns (o: Outcome<()>)
      requires Fits(b)
      modifies this`vars, this`outCounter, this`faults, this`sent
      ensures (AsSender(), o) == OutputBuffer(old(AsSender()), b, up)
    {
      var msg := new byte[b.size](_ => 0);
      msg[0] := b.id % 0x100;
      assert msg[..] == Blank(b);
      var changed, verdict := FillBuffer(b, up, msg);
      o := ConcludeBuffer(msg, changed, verdict);
    }

    method OutputVars(up: Params) returns (o: Outcome<()>)
      requires LayoutFits(layout)
      modifies this`vars, this`outCounter, this`faults, this`sent
      ensures (AsSender(), o) == Output(old(AsSender()), layout, up)
    {
      for i := 0 to |layout|
        invariant Output(AsSender(), layout[i..], up) == Output(old(AsSender()), layout, up)
      {
        assert Fits(layout[i]);
        assert layout[i..][0] == layout[i] && layout[i..][1..] == layout[i + 1..];
        o := SendBuffer(layout[i], up);
        if o.Throw? { return; }
      }
      o := Ok(());
    }

    // ----- input_vars -----

    /** The walk over the variables of an accepted message. */
    method ReadVars(b: Buffer, m: Message, res: Params) returns (res': Params)
      requires Fits(b) && |m| == b.size
      modifies this`faults
      ensures var d := DecodeVars(b.vars, vars, m, res); res' == d.0 && faults == old(faults) + d.1
    {
      res' := res;
      for i := 0 to |b.vars|
        invariant var d, rest := DecodeVars(b.vars, vars, m, res), DecodeVars(b.vars[i..], vars, m, res');
                  rest.0 == d.0 && faults + rest.1 == old(faults) + d.1
      {
        var d := b.vars[i];
        assert b.vars[i..][0] == d && b.vars[i..][1..] == b.vars[i + 1..];
        var data := m[d.offset..d.offset + d.size];
        if d.name !in vars {
          AppendOne(faults, Absent(d.name), DecodeVars(b.vars[i + 1..], vars, m, res').1);
          faults := faults + [Absent(d.name)];
        } else {
          match FromBytes(TypeOf(vars[d.name]), data) {
            case None =>
              faults := faults + [BadValue(d.name, data)];
              return;
            case Some(v) => res' := res'[d.name := v];
          }
        }
      }
      assert faults + [] == faults;
    }

    static lemma AppendOne<T>(a: seq<T>, x: T, b: seq<T>)
      ensures a + ([x] + b) == (a + [x]) + b
    {
    }

    method FindInLayout(id: int) returns (b: Option<Buffer>)
      ensures b == FindBuffer(layout, id)
    {
      for i := 0 to |layout|
        invariant FindBuffer(layout[i..], id) == FindBuffer(layout, id)
      {
        assert layout[i..][0] == layout[i] && layout[i..][1..] == layout[i + 1..];
        if layout[i].id == id { return Some(layout[i]); }
      }
      return None;
    }

    /** One message of input_vars. */
    method ReadMessage(m: Message, res: Params) returns (res': Params)
      requires LayoutFits(layout) && |m| > 0
      modifies this`inCounter, this`faults
      ensures (AsReceiver(), res') == Accept(old(AsReceiver()), layout, vars, m, res)
    {
      res' := res;
      FoundFits(layout, m[0]);
      var found := FindInLayout(m[0]);
      if found.None? {
        faults := faults + [UnknownBuffer(m[0])];
        return;
      }
      var b := found.value;
      assert Fits(b);
      if |m| != b.size {
        faults := faults + [WrongSize(b.id, |m|)];
        return;
      }
      if inCounter % 0x100 == m[1] {
        faults := faults + [Repeated];
        return;
      }
      inCounter := m[1];
      var cs := m[2] as int + 0x100 * m[3] as int;
      var expected := CalcControlSum(m[4..], m[0] as int + 0x100 * m[1] as int);
      if expected != cs {
        faults := faults + [WrongSum(expected, cs)];
        return;
      }
      res' := ReadVars(b, m, res);
    }

    method InputVars() returns (res: Params)
      requires LayoutFits(layout) && NoneEmpty(queue.msgs)
      modifies this`inCounter, this`faults, queue
      ensures (AsReceiver(), res) == Input(old(AsReceiver()), layout, vars, old(queue.msgs))
      ensures queue.msgs == []
    {
      var data := queue.GetMessages();
      res := map[];
      for i := 0 to |data|
        invariant queue.msgs == []
        invariant AcceptAll(AsReceiver(), layout, vars, data[i..], res) == Input(old(AsReceiver()), layout, vars, data)
      {
        assert |data[i]| > 0 && data[i..][0] == data[i] && data[i..][1..] == data[i + 1..];
        res := ReadMessage(data[i], res);
      }
    }
  }
}
