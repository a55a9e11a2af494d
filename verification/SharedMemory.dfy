/** The shared memory class: one pass of reads and writes over a mapped region, in place. */
module SharedMemory {
  import opened Common
  import opened Values
  import opened Bytes
  import opened Conditions
  import Formula

  /** A condition that was not configured is false; an empty one is true. */
  datatype Cond = Cond(toks: seq<string>, default: bool)

  const NEVER := Cond([], false)
  const ALWAYS := Cond([], true)

  datatype VarDesc = VarDesc(name: string, offset: nat, size: nat, read: Cond, write: Cond)

  type Memory = seq<byte>

  /** The messages of the two handlers and of the size check. */
  datatype Fault = Missing(name: string) | Unprocessed(name: string) | TooLong(name: string)

  /** The memory, the values of this pass, the variables to return and the messages. */
  datatype Pass = Pass(mem: Memory, vars: Params, res: Params, faults: seq<Fault>)

  function Holds(c: Cond, vars: Params): Outcome<bool> {
    Formula.Solve(Formula.LogicOps(), c.toks, map k | k in vars :: IsSet(vars[k]), c.default)
  }

  /** get_chars refuses a region that ends at the end of the memory. */
  predicate Reachable(d: VarDesc, size: nat) {
    d.offset + d.size < size
  }

  function Region(mem: Memory, d: VarDesc): seq<byte>
    requires Reachable(d, |mem|)
  {
    mem[d.offset..d.offset + d.size]
  }

  /** What a write leaves in a region: the bytes of the value, then zeros; all zeros if they do not
      fit. */
  function Image(v: Value, size: nat): (bs: seq<byte>)
    ensures |bs| == size
  {
    var bs := ToBytes(v);
    if size < |bs| then Zeros(size) else bs + Zeros(size - |bs|)
  }

  /** from_bytes whose failure goes unnoticed: the value stays and is still reported. */
  function Decoded(v: Value, bs: seq<byte>): Value {
    var r := FromBytes(TypeOf(v), bs);
    if r.Some? then r.value else v
  }

  function ReadStep(p: Pass, d: VarDesc, held: bool): Pass
    requires Reachable(d, |p.mem|) && d.name in p.vars
  {
    if !held then p
    else
      var v := Decoded(p.vars[d.name], Region(p.mem, d));
      p.(vars := p.vars[d.name := v], res := p.res[d.name := v])
  }

  function WriteStep(p: Pass, d: VarDesc, held: bool): (r: Pass)
    requires Reachable(d, |p.mem|) && d.name in p.vars
    ensures |r.mem| == |p.mem|
  {
    if !held then p
    else
      var v := p.vars[d.name];
      p.(mem := Put(p.mem, d.offset, Image(v, d.size)),
         faults := if d.size < |ToBytes(v)| then p.faults + [TooLong(d.name)] else p.faults)
  }

  /** One turn of the loop. */
  function Visit(p: Pass, d: VarDesc): (r: Pass)
    ensures |r.mem| == |p.mem|
  {
    if !Reachable(d, |p.mem|) then p.(faults := p.faults + [Unprocessed(d.name)])
    else if d.name !in p.vars then p.(faults := p.faults + [Missing(d.name)])
    else
      match Holds(d.read, p.vars)
      case Throw(_) => p.(faults := p.faults + [Missing(d.name)])
      case Ok(rd) =>
        var p1 := ReadStep(p, d, rd);
        match Holds(d.write, p1.vars)
        case Throw(_) => p1.(faults := p1.faults + [Missing(d.name)])
        case Ok(wr) => WriteStep(p1, d, wr)
  }

  function VisitAll(p: Pass, ds: seq<VarDesc>): (r: Pass)
    ensures |r.mem| == |p.mem|
  {
    if ds == [] then p else Visit(VisitAll(p, ds[..|ds| - 1]), ds[|ds| - 1])
  }

  // ----- the loop in place -----

  lemma ClearThenCopy(mem: Memory, offset: nat, size: nat, bs: seq<byte>)
    requires offset + size <= |mem| && |bs| <= size
    ensures Put(Put(mem, offset, Zeros(size)), offset, bs) == Put(mem, offset, bs + Zeros(size - |bs|))
  {
  }

  class SharedMemoryIo {
    const layout: seq<VarDesc>
    const mem: array<byte>
    var faults: seq<Fault>

    constructor (layout: seq<VarDesc>, mem: array<byte>)
      ensures this.layout == layout && this.mem == mem && faults == []
    {
      this.layout, this.mem, faults := layout, mem, [];
    }

    method Check(c: Cond, vars: Params) returns (o: Outcome<bool>)
      ensures o == Holds(c, vars)
    {
      o := Formula.SolveByStack(Formula.LogicOps(), c.toks, map k | k in vars :: IsSet(vars[k]), c.default);
    }

    /** The write branch. */
    method WriteVar(d: VarDesc, v: Value)
      requires Reachable(d, mem.Length)
      modifies this, mem
      ensures mem[..] == Put(old(mem[..]), d.offset, Image(v, d.size))
      ensures faults == if d.size < |ToBytes(v)| then old(faults) + [TooLong(d.name)] else old(faults)
    {
      hide ToBytes, Put;
      Clear(mem, d.offset, d.size);
      var bs := ToBytes(v);
      if d.size < |bs| {
        faults := faults + [TooLong(d.name)];
      } else {
        ClearThenCopy(old(mem[..]), d.offset, d.size, bs);
        CopyInto(mem, d.offset, bs);
      }
    }

    method VisitVar(d: VarDesc, vars: Params, res: Params) returns (vars': Params, res': Params)
      modifies this, mem
      ensures Pass(mem[..], vars', res', faults) == Visit(Pass(old(mem[..]), vars, res, old(faults)), d)
    {
      vars', res' := vars, res;
      if mem.Length <= d.offset + d.size {
        faults := faults + [Unprocessed(d.name)];
        return;
      }
      if d.name !in vars' {
        faults := faults + [Missing(d.name)];
        return;
      }
      var rd := Check(d.read, vars');
      if rd.Throw? {
        faults := faults + [Missing(d.name)];
        return;
      }
      if rd.value {
        var decoded := FromBytes(TypeOf(vars'[d.name]), mem[d.offset..d.offset + d.size]);
        var v := if decoded.Some? then decoded.value else vars'[d.name];
        res' := res'[d.name := v];
        vars' := vars'[d.name := v];
      }
      var wr := Check(d.write, vars');
      if wr.Throw? {
        faults := faults + [Missing(d.name)];
        return;
      }
      if wr.value { WriteVar(d, vars'[d.name]); }
    }

    /** shared_memory_io on the variables of the block. */
    method Exchange(v: Params) returns (res: Params)
      modifies this, mem
      ensures var p := VisitAll(Pass(old(mem[..]), v, map[], old(faults)), layout);
              mem[..] == p.mem && res == p.res && faults == p.faults
    {
      var vars := v;
      res := map[];
      for i := 0 to |layout|
        invariant Pass(mem[..], vars, res, faults) == VisitAll(Pass(old(mem[..]), v, map[], old(faults)), layout[..i])
      {
        assert layout[..i + 1][..i] == layout[..i];
        vars, res := VisitVar(layout[i], vars, res);
      }
      assert layout[..|layout|] == layout;
    }
  }

  // ----- the memory image -----

  predicate Apart(c: VarDesc, d: VarDesc) {
    c.offset + c.size <= d.offset || d.offset + d.size <= c.offset
  }

  ghost predicate AllApart(ds: seq<VarDesc>) {
    forall i, k | 0 <= i < |ds| && 0 <= k < |ds| && i != k :: Apart(ds[i], ds[k])
  }

  /** The pass on a memory that is only read: every turn sees the bytes from before the pass. */
  function Planned(p: Pass, ds: seq<VarDesc>): Pass {
    if ds == [] then p
    else
      var q := Planned(p, ds[..|ds| - 1]);
      Visit(q.(mem := p.mem), ds[|ds| - 1]).(mem := p.mem)
  }

  /** The bytes a turn writes. */
  function Written(q: Pass, d: VarDesc): (bs: Option<seq<byte>>)
    ensures bs.Some? ==> Reachable(d, |q.mem|) && |bs.value| == d.size
  {
    if !Reachable(d, |q.mem|) || d.name !in q.vars then None
    else
      match Holds(d.read, q.vars)
      case Throw(_) => None
      case Ok(rd) =>
        var q1 := ReadStep(q, d, rd);
        match Holds(d.write, q1.vars)
        case Throw(_) => None
        case Ok(wr) => if wr then Some(Image(q1.vars[d.name], d.size)) else None
  }

  /** The bytes turn k is planned to write. */
  function PlannedWrite(p: Pass, ds: seq<VarDesc>, k: nat): Option<seq<byte>>
    requires k < |ds|
  {
    Written(Planned(p, ds[..k]).(mem := p.mem), ds[k])
  }

  function After(mem: Memory, d: VarDesc, w: Option<seq<byte>>): (r: Memory)
    requires w.Some? ==> Reachable(d, |mem|) && |w.value| == d.size
    ensures |r| == |mem|
  {
    if w.Some? then Put(mem, d.offset, w.value) else mem
  }

  lemma VisitWrites(q: Pass, d: VarDesc)
    ensures Visit(q, d).mem == After(q.mem, d, Written(q, d))
  {
  }

  /** A turn depends on nothing in the memory but its region. */
  lemma VisitSeesRegion(p: Pass, q: Pass, d: VarDesc)
    requires |p.mem| == |q.mem| && p == q.(mem := p.mem)
    requires Reachable(d, |p.mem|) ==> Region(p.mem, d) == Region(q.mem, d)
    ensures Visit(p, d) == Visit(q, d).(mem := Visit(p, d).mem)
    ensures Visit(p, d).mem == After(p.mem, d, Written(q, d))
  {
    VisitWrites(p, d);
  }

  predicate Covers(d: VarDesc, i: nat) {
    d.offset <= i < d.offset + d.size
  }

  /** None of the first n turns writes byte i. */
  ghost predicate Untouched(p: Pass, ds: seq<VarDesc>, n: nat, i: nat)
    requires n <= |ds|
  {
    forall k | 0 <= k < n :: Covers(ds[k], i) ==> PlannedWrite(p, ds, k).None?
  }

  ghost predicate RegionWritten(p: Pass, mem: Memory, ds: seq<VarDesc>, k: nat)
    requires k < |ds|
  {
    PlannedWrite(p, ds, k).Some? ==> Reachable(ds[k], |mem|) && Region(mem, ds[k]) == PlannedWrite(p, ds, k).value
  }

  /** The first n turns have made of p.mem what the plan says. */
  ghost predicate MemoryFollows(p: Pass, mem: Memory, ds: seq<VarDesc>, n: nat)
    requires n <= |ds|
  {
    && |mem| == |p.mem|
    && (forall i | 0 <= i < |mem| && Untouched(p, ds, n, i) :: mem[i] == p.mem[i])
    && (forall k | 0 <= k < n :: RegionWritten(p, mem, ds, k))
  }

  /** Before turn n its region still holds the bytes from before the pass. */
  lemma RegionUnread(p: Pass, mem: Memory, ds: seq<VarDesc>, n: nat)
    requires n < |ds| && AllApart(ds) && MemoryFollows(p, mem, ds, n) && Reachable(ds[n], |mem|)
    ensures Region(mem, ds[n]) == Region(p.mem, ds[n])
  {
    var d := ds[n];
    forall i | d.offset <= i < d.offset + d.size ensures mem[i] == p.mem[i] {
      forall k | 0 <= k < n ensures !Covers(ds[k], i) { assert Apart(ds[k], ds[n]); }
      assert Untouched(p, ds, n, i);
    }
  }

  lemma MemoryStep(p: Pass, mem: Memory, ds: seq<VarDesc>, n: nat)
    requires n < |ds| && AllApart(ds) && MemoryFollows(p, mem, ds, n)
    ensures MemoryFollows(p, After(mem, ds[n], PlannedWrite(p, ds, n)), ds, n + 1)
  {
    var d, w := ds[n], PlannedWrite(p, ds, n);
    var r := After(mem, d, w);
    forall i | 0 <= i < |r| && Untouched(p, ds, n + 1, i) ensures r[i] == p.mem[i] {
      assert Untouched(p, ds, n, i);
      assert Covers(ds[n], i) ==> w.None?;
      if w.Some? { PutAt(mem, d.offset, w.value, i); }
    }
    forall k | 0 <= k < n + 1 ensures RegionWritten(p, r, ds, k) {
      if k < n {
        assert RegionWritten(p, mem, ds, k);
        assert Apart(ds[k], ds[n]);
        if w.Some? && PlannedWrite(p, ds, k).Some? { RegionApart(mem, d, w.value, ds[k]); }
      } else if w.Some? {
        RegionSame(mem, d, w.value);
      }
    }
  }

  lemma RegionApart(mem: Memory, d: VarDesc, bs: seq<byte>, c: VarDesc)
    requires Reachable(d, |mem|) && Reachable(c, |mem|) && |bs| == d.size && Apart(c, d)
    ensures Region(Put(mem, d.offset, bs), c) == Region(mem, c)
  {
  }

  lemma RegionSame(mem: Memory, d: VarDesc, bs: seq<byte>)
    requires Reachable(d, |mem|) && |bs| == d.size
    ensures Region(Put(mem, d.offset, bs), d) == bs
  {
  }

  /** The pass in place, over regions that do not overlap, is the planned one: same values, same
      result, same messages; each written region holds its image, and every other byte is the same. */
  lemma {:induction false} PassFollowsPlan(p: Pass, ds: seq<VarDesc>, n: nat)
    requires AllApart(ds) && n <= |ds|
    ensures var r := VisitAll(p, ds[..n]);
            r == Planned(p, ds[..n]).(mem := r.mem) && MemoryFollows(p, r.mem, ds, n)
    decreases n
  {
    if n > 0 {
      assert ds[..n][..n - 1] == ds[..n - 1];
      PassFollowsPlan(p, ds, n - 1);
      var r, d := VisitAll(p, ds[..n - 1]), ds[n - 1];
      if Reachable(d, |r.mem|) { RegionUnread(p, r.mem, ds, n - 1); }
      VisitSeesRegion(r, Planned(p, ds[..n - 1]).(mem := p.mem), d);
      MemoryStep(p, r.mem, ds, n - 1);
    }
  }

  lemma MemoryImage(p: Pass, ds: seq<VarDesc>)
    requires AllApart(ds)
    ensures var r := VisitAll(p, ds);
            r == Planned(p, ds).(mem := r.mem) && MemoryFollows(p, r.mem, ds, |ds|)
  {
    PassFollowsPlan(p, ds, |ds|);
    assert ds[..|ds|] == ds;
  }

  // ----- the result -----

  /** Turn k reads: its region can be reached, its variable is there, and its read condition holds on
      the values as they are by then. */
  predicate Reads(p: Pass, ds: seq<VarDesc>, k: nat)
    requires k < |ds|
  {
    var q, d := VisitAll(p, ds[..k]), ds[k];
    Reachable(d, |q.mem|) && d.name in q.vars && Holds(d.read, q.vars) == Ok(true)
  }

  lemma VisitResult(p: Pass, d: VarDesc)
    ensures var taken := Reachable(d, |p.mem|) && d.name in p.vars && Holds(d.read, p.vars) == Ok(true);
            Visit(p, d).res.Keys == p.res.Keys + if taken then {d.name} else {}
  {
  }

  /** The variables returned are exactly those some turn read. */
  lemma {:induction false} ResultIsWhatWasRead(p: Pass, ds: seq<VarDesc>, n: nat, name: string)
    requires n <= |ds|
    ensures name in VisitAll(p, ds[..n]).res <==>
            name in p.res || exists k :: 0 <= k < n && ds[k].name == name && Reads(p, ds, k)
    decreases n
  {
    if n > 0 {
      assert ds[..n][..n - 1] == ds[..n - 1];
      ResultIsWhatWasRead(p, ds, n - 1, name);
      VisitResult(VisitAll(p, ds[..n - 1]), ds[n - 1]);
    }
  }

  lemma VisitTyped(p: Pass, d: VarDesc, own: Params)
    requires SomeOf(p.res, own) && TypesOf(p.vars) == TypesOf(own)
    ensures SomeOf(Visit(p, d).res, own) && TypesOf(Visit(p, d).vars) == TypesOf(own)
  {
    hide FromBytes, Holds, Put, Image, ToBytes;
    if Reachable(d, |p.mem|) && d.name in p.vars {
      DecodeKeepsType(TypeOf(p.vars[d.name]), Region(p.mem, d));
      ReadTyped(p, d, true, own);
      ReadTyped(p, d, false, own);
    }
  }

  lemma ReadTyped(p: Pass, d: VarDesc, held: bool, own: Params)
    requires Reachable(d, |p.mem|) && d.name in p.vars
    requires SomeOf(p.res, own) && TypesOf(p.vars) == TypesOf(own)
    ensures var q := ReadStep(p, d, held); SomeOf(q.res, own) && TypesOf(q.vars) == TypesOf(own) && d.name in q.vars
  {
    hide FromBytes;
    DecodeKeepsType(TypeOf(p.vars[d.name]), Region(p.mem, d));
    assert d.name in TypesOf(p.vars) && TypesOf(own)[d.name] == TypeOf(p.vars[d.name]);
    assert forall n <- ReadStep(p, d, held).vars :: n in p.vars && n in TypesOf(p.vars);
  }

  /** Whatever the memory holds, the class returns variables of the block only, with values of their types. */
  lemma {:induction false} ResultIsTyped(mem: Memory, own: Params, ds: seq<VarDesc>)
    ensures var r := VisitAll(Pass(mem, own, map[], []), ds); SomeOf(r.res, own) && TypesOf(r.vars) == TypesOf(own)
    decreases |ds|
  {
    hide Visit;
    if ds != [] {
      ResultIsTyped(mem, own, ds[..|ds| - 1]);
      VisitTyped(VisitAll(Pass(mem, own, map[], []), ds[..|ds| - 1]), ds[|ds| - 1], own);
    }
  }

  // ----- writing, then reading -----

  /** A region of the exact size of its variable. */
  predicate ExactlyHolds(d: VarDesc, size: nat, vars: Params) {
    Reachable(d, size) && d.name in vars && |ToBytes(vars[d.name])| == d.size
  }

  ghost predicate Exact(ds: seq<VarDesc>, size: nat, vars: Params) {
    AllApart(ds) && forall k | 0 <= k < |ds| :: ExactlyHolds(ds[k], size, vars)
  }

  /** The layout of a side that only writes, and of one that only reads. */
  function AsWriter(ds: seq<VarDesc>): (r: seq<VarDesc>)
    ensures |r| == |ds|
  {
    seq(|ds|, k requires 0 <= k < |ds| => ds[k].(read := NEVER, write := ALWAYS))
  }

  function AsReader(ds: seq<VarDesc>): (r: seq<VarDesc>)
    ensures |r| == |ds|
  {
    seq(|ds|, k requires 0 <= k < |ds| => ds[k].(read := ALWAYS, write := NEVER))
  }

  lemma {:induction false} WriterPlan(p: Pass, ds: seq<VarDesc>, n: nat)
    requires n <= |ds| && Exact(ds, |p.mem|, p.vars)
    ensures Planned(p, AsWriter(ds)[..n]) == p
    ensures n < |ds| ==> PlannedWrite(p, AsWriter(ds), n) == Some(ToBytes(p.vars[ds[n].name]))
    decreases n
  {
    var ws := AsWriter(ds);
    if n > 0 {
      assert ws[..n][..n - 1] == ws[..n - 1];
      WriterPlan(p, ds, n - 1);
      assert ExactlyHolds(ds[n - 1], |p.mem|, p.vars);
    }
    if n < |ds| {
      assert ExactlyHolds(ds[n], |p.mem|, p.vars);
      assert ToBytes(p.vars[ds[n].name]) + Zeros(0) == ToBytes(p.vars[ds[n].name]);
    }
  }

  lemma WriterApart(ds: seq<VarDesc>)
    requires AllApart(ds)
    ensures AllApart(AsWriter(ds))
  {
    var ws := AsWriter(ds);
    forall i, k | 0 <= i < |ws| && 0 <= k < |ws| && i != k ensures Apart(ws[i], ws[k]) { assert Apart(ds[i], ds[k]); }
  }

  /** The region of d holds the bytes of its variable in vars. */
  predicate Stored(d: VarDesc, mem: Memory, vars: Params) {
    Reachable(d, |mem|) && d.name in vars && Region(mem, d) == ToBytes(vars[d.name])
  }

  ghost predicate AllStored(ds: seq<VarDesc>, mem: Memory, vars: Params) {
    forall k | 0 <= k < |ds| :: Stored(ds[k], mem, vars)
  }

  lemma StoredByPlan(p: Pass, mem: Memory, ds: seq<VarDesc>, k: nat)
    requires k < |ds| && Exact(ds, |p.mem|, p.vars) && MemoryFollows(p, mem, AsWriter(ds), |ds|)
    ensures Stored(ds[k], mem, p.vars)
  {
    WriterPlan(p, ds, k);
    assert RegionWritten(p, mem, AsWriter(ds), k);
    assert ExactlyHolds(ds[k], |p.mem|, p.vars);
  }

  /** After a write pass every region holds the bytes of its variable. */
  lemma WrittenOut(p: Pass, ds: seq<VarDesc>)
    requires Exact(ds, |p.mem|, p.vars)
    ensures var r := VisitAll(p, AsWriter(ds));
            r == p.(mem := r.mem) && AllStored(ds, r.mem, p.vars)
  {
    var ws := AsWriter(ds);
    WriterApart(ds);
    MemoryImage(p, ws);
    WriterPlan(p, ds, |ds|);
    assert ws[..|ds|] == ws;
    forall k | 0 <= k < |ds| ensures Stored(ds[k], VisitAll(p, ws).mem, p.vars) {
      StoredByPlan(p, VisitAll(p, ws).mem, ds, k);
    }
  }

  /** The first n variables of the layout with their values in vars. */
  function Kept(ds: seq<VarDesc>, n: nat, vars: Params): Params
    requires n <= |ds|
  {
    if n == 0 then map[]
    else
      var rest := Kept(ds, n - 1, vars);
      if ds[n - 1].name in vars then rest[ds[n - 1].name := vars[ds[n - 1].name]] else rest
  }

  lemma {:induction false} KeptAt(ds: seq<VarDesc>, n: nat, vars: Params, name: string)
    requires n <= |ds|
    ensures name in Kept(ds, n, vars) <==> name in vars && exists i :: 0 <= i < n && ds[i].name == name
    ensures name in Kept(ds, n, vars) ==> Kept(ds, n, vars)[name] == vars[name]
    decreases n
  {
    if n > 0 { KeptAt(ds, n - 1, vars, name); }
  }

  ghost predicate SameTypesOn(ds: seq<VarDesc>, a: Params, b: Params) {
    forall k | 0 <= k < |ds| :: ds[k].name in a && ds[k].name in b && TypeOf(a[ds[k].name]) == TypeOf(b[ds[k].name])
  }

  lemma ReadOne(p: Pass, d: VarDesc, vars: Params)
    requires Stored(d, p.mem, vars) && d.read == ALWAYS && d.write == NEVER
    requires d.name in p.vars && TypeOf(p.vars[d.name]) == TypeOf(vars[d.name])
    ensures Visit(p, d) == p.(vars := p.vars[d.name := vars[d.name]], res := p.res[d.name := vars[d.name]])
  {
    CodecRoundTrip(vars[d.name]);
  }

  lemma PlusOne(a: Params, b: Params, k: string, v: Value)
    ensures (a + b)[k := v] == a + b[k := v]
  {
  }

  lemma ReaderReads(ds: seq<VarDesc>, k: nat, q: Pass, a: Params, n: nat, vars: Params)
    requires k < |ds| && n <= |ds| && AllStored(ds, q.mem, vars) && SameTypesOn(ds, a, vars)
    requires q.vars == a + Kept(ds, n, vars)
    ensures var d, v := AsReader(ds)[k], vars[ds[k].name];
            Visit(q, d) == q.(vars := q.vars[ds[k].name := v], res := q.res[ds[k].name := v])
  {
    assert Stored(ds[k], q.mem, vars);
    KeptAt(ds, n, vars, ds[k].name);
    ReadOne(q, AsReader(ds)[k], vars);
  }

  /** Reading regions that hold the bytes of vars gives vars back. */
  lemma {:induction false} ReadBack(p: Pass, ds: seq<VarDesc>, n: nat, vars: Params)
    requires n <= |ds| && AllStored(ds, p.mem, vars) && SameTypesOn(ds, p.vars, vars)
    ensures VisitAll(p, AsReader(ds)[..n]) == p.(vars := p.vars + Kept(ds, n, vars), res := p.res + Kept(ds, n, vars))
    decreases n
  {
    hide Visit, Stored, ToBytes;
    var rs := AsReader(ds);
    if n == 0 {
      assert p.res + map[] == p.res && p.vars + map[] == p.vars;
    } else {
      assert rs[..n][..n - 1] == rs[..n - 1];
      ReadBack(p, ds, n - 1, vars);
      ReaderReads(ds, n - 1, VisitAll(p, rs[..n - 1]), p.vars, n - 1, vars);
      var name := ds[n - 1].name;
      PlusOne(p.vars, Kept(ds, n - 1, vars), name, vars[name]);
      PlusOne(p.res, Kept(ds, n - 1, vars), name, vars[name]);
    }
  }

  /** One side writes its variables, another side of the same layout and types reads them: it gets
      exactly the values written. */
  lemma WriteThenRead(p: Pass, ds: seq<VarDesc>, other: Params)
    requires Exact(ds, |p.mem|, p.vars) && SameTypesOn(ds, other, p.vars)
    ensures var w := VisitAll(p, AsWriter(ds));
            var r := VisitAll(Pass(w.mem, other, map[], []), AsReader(ds));
            && r.faults == [] && r.mem == w.mem
            && forall k | 0 <= k < |ds| :: ds[k].name in r.res && ds[k].name in p.vars &&
                 r.res[ds[k].name] == p.vars[ds[k].name]
  {
    WrittenOut(p, ds);
    ReadBack(Pass(VisitAll(p, AsWriter(ds)).mem, other, map[], []), ds, |ds|, p.vars);
    assert AsReader(ds)[..|ds|] == AsReader(ds);
    forall k | 0 <= k < |ds|
      ensures ds[k].name in p.vars && ds[k].name in Kept(ds, |ds|, p.vars) &&
              Kept(ds, |ds|, p.vars)[ds[k].name] == p.vars[ds[k].name]
    {
      assert ExactlyHolds(ds[k], |p.mem|, p.vars);
      KeptAt(ds, |ds|, p.vars, ds[k].name);
    }
  }

  // ----- conditions -----

  /** A condition that spells a tree has the meaning of the tree; one that was not configured is false, an
      empty one true. */
  lemma ConditionHolds(e: Formula.Expr, default: bool, vars: Params)
    ensures Holds(NEVER, vars) == Ok(false) && Holds(ALWAYS, vars) == Ok(true)
    ensures Condition(e, vars) ==> Holds(Cond(Formula.Postfix(e), default), vars) == Ok(Meets(e, vars))
  {
    if Condition(e, vars) {
      SolvesMeaning(e, vars, default);
      assert (map k | k in vars :: IsSet(vars[k])) == Readings(vars);
    }
  }

  /** Turn k reads exactly when its region can be reached, its variable is there, and its condition is true
      of the values as they are by then. */
  lemma ReadsByCondition(p: Pass, ds: seq<VarDesc>, k: nat, e: Formula.Expr)
    requires k < |ds| && ds[k].read.toks == Formula.Postfix(e) && Condition(e, VisitAll(p, ds[..k]).vars)
    ensures var q := VisitAll(p, ds[..k]);
            Reads(p, ds, k) <==> ds[k].offset + ds[k].size < |p.mem| && ds[k].name in q.vars && Meets(e, q.vars)
  {
    hide Visit, Formula.Postfix;
    ConditionHolds(e, ds[k].read.default, VisitAll(p, ds[..k]).vars);
    PassKeepsSize(p, ds[..k]);
  }

  lemma {:induction false} PassKeepsSize(p: Pass, ds: seq<VarDesc>)
    ensures |VisitAll(p, ds).mem| == |p.mem|
    decreases |ds|
  {
    hide Visit;
    if ds != [] { PassKeepsSize(p, ds[..|ds| - 1]); }
  }

  /** A turn without a reading condition writes exactly when its writing condition is true. */
  lemma WritesByCondition(q: Pass, d: VarDesc, e: Formula.Expr)
    requires d.read == NEVER && d.write.toks == Formula.Postfix(e) && Condition(e, q.vars)
    ensures Written(q, d).Some? <==> d.offset + d.size < |q.mem| && d.name in q.vars && Meets(e, q.vars)
  {
    hide Formula.Postfix;
    ConditionHolds(e, d.write.default, q.vars);
  }

  /** What a read makes of a region: the value of the variable's type that its bytes stand for, or, unnoticed,
      the value from before where they stand for none. */
  lemma ReadMeans(p: Pass, d: VarDesc)
    requires Reachable(d, |p.mem|) && d.name in p.vars
    ensures var q, was := ReadStep(p, d, true), p.vars[d.name];
            && d.name in q.vars && d.name in q.res && q.res[d.name] == q.vars[d.name]
            && (forall v | TypeOf(v) == TypeOf(was) && Stands(Region(p.mem, d), v) :: q.vars[d.name] == v)
            && ((forall v | TypeOf(v) == TypeOf(was) :: !Stands(Region(p.mem, d), v)) ==> q.vars[d.name] == was)
            && q == p.(vars := p.vars[d.name := q.vars[d.name]], res := p.res[d.name := q.vars[d.name]])
  {
    hide FromBytes, Stands;
    var ty, bs := TypeOf(p.vars[d.name]), Region(p.mem, d);
    forall v ensures FromBytes(ty, bs) == Some(v) <==> TypeOf(v) == ty && Stands(bs, v) { DecodesIff(ty, bs, v); }
  }

  /** The message a turn over a reachable region leaves: that something is missing when the variable is, or
      when a condition cannot be solved; that the value is too long when it is to be written and is. */
  lemma MessageOfTurn(p: Pass, d: VarDesc)
    requires d.offset + d.size < |p.mem|
    ensures var r := Visit(p, d);
            var q := if d.name in p.vars && Holds(d.read, p.vars) == Ok(true) then ReadStep(p, d, true) else p;
            && (d.name !in p.vars || Holds(d.read, p.vars).Throw? || Holds(d.write, q.vars).Throw? ==>
                  r.faults == p.faults + [Missing(d.name)] && r.mem == p.mem)
            && (d.name in p.vars && Holds(d.read, p.vars).Ok? && Holds(d.write, q.vars).Ok? ==>
                  r.faults == p.faults + if Holds(d.write, q.vars).value && |ToBytes(q.vars[d.name])| > d.size
                                         then [TooLong(d.name)] else [])
            && r.vars == q.vars && r.res == q.res
  {
    hide Holds, ToBytes, FromBytes;
    if d.name in p.vars && Holds(d.read, p.vars).Ok? {
      var q := ReadStep(p, d, Holds(d.read, p.vars).value);
      assert q.faults == p.faults && p.faults + [] == p.faults;
    }
  }

  // ----- values that are shorter or longer than their regions -----

  /** The region holds the bytes of the value and then zeros, or nothing but zeros if they do not fit. */
  predicate Padded(d: VarDesc, mem: Memory, v: Value) {
    && d.offset + d.size < |mem|
    && forall i | 0 <= i < d.size ::
         mem[d.offset + i] == if |ToBytes(v)| <= d.size && i < |ToBytes(v)| then ToBytes(v)[i] else 0
  }

  ghost predicate AllReach(ds: seq<VarDesc>, size: nat, vars: Params) {
    AllApart(ds) && forall k | 0 <= k < |ds| :: ds[k].offset + ds[k].size < size && ds[k].name in vars
  }

  predicate TooLarge(d: VarDesc, vars: Params)
    requires d.name in vars
  {
    |ToBytes(vars[d.name])| > d.size
  }

  lemma {:induction false} WriterPlanAny(p: Pass, ds: seq<VarDesc>, n: nat)
    requires n <= |ds| && AllReach(ds, |p.mem|, p.vars)
    ensures var q := Planned(p, AsWriter(ds)[..n]);
            && q == p.(faults := q.faults)
            && forall x :: x in q.faults <==>
                 x in p.faults || exists k :: 0 <= k < n && x == TooLong(ds[k].name) && TooLarge(ds[k], p.vars)
    ensures n < |ds| ==> PlannedWrite(p, AsWriter(ds), n) == Some(Image(p.vars[ds[n].name], ds[n].size))
    decreases n
  {
    hide Image;
    var ws := AsWriter(ds);
    if n > 0 {
      assert ws[..n][..n - 1] == ws[..n - 1];
      WriterPlanAny(p, ds, n - 1);
    }
  }

  lemma ImageIsPadded(mem: Memory, d: VarDesc, v: Value)
    requires Reachable(d, |mem|) && Region(mem, d) == Image(v, d.size)
    ensures Padded(d, mem, v)
  {
    forall i | 0 <= i < d.size
      ensures mem[d.offset + i] == if |ToBytes(v)| <= d.size && i < |ToBytes(v)| then ToBytes(v)[i] else 0
    {
      assert mem[d.offset + i] == Region(mem, d)[i];
    }
  }

  /** A write pass over regions of any sizes that do not overlap: each holds the bytes of its variable padded
      with zeros, or zeros alone if they do not fit, which leaves a message; nothing else has changed. */
  lemma WrittenPadded(p: Pass, ds: seq<VarDesc>)
    requires AllReach(ds, |p.mem|, p.vars)
    ensures var r := VisitAll(p, AsWriter(ds));
            && r.vars == p.vars && r.res == p.res && |r.mem| == |p.mem|
            && (forall k | 0 <= k < |ds| :: Padded(ds[k], r.mem, p.vars[ds[k].name]))
            && (forall i | 0 <= i < |p.mem| && (forall k | 0 <= k < |ds| :: !Covers(ds[k], i)) :: r.mem[i] == p.mem[i])
            && forall x :: x in r.faults <==>
                 x in p.faults || exists k :: 0 <= k < |ds| && x == TooLong(ds[k].name) && TooLarge(ds[k], p.vars)
  {
    hide Image, Visit, ToBytes, PlannedWrite;
    var ws := AsWriter(ds);
    WriterApart(ds);
    MemoryImage(p, ws);
    WriterPlanAny(p, ds, |ds|);
    assert ws[..|ds|] == ws;
    var mem := VisitAll(p, ws).mem;
    forall k | 0 <= k < |ds| ensures Padded(ds[k], mem, p.vars[ds[k].name]) {
      WriterPlanAny(p, ds, k);
      assert RegionWritten(p, mem, ws, k);
      assert Region(mem, ws[k]) == Region(mem, ds[k]);
      ImageIsPadded(mem, ds[k], p.vars[ds[k].name]);
    }
    forall i | 0 <= i < |p.mem| && (forall k | 0 <= k < |ds| :: !Covers(ds[k], i)) ensures mem[i] == p.mem[i] {
      assert Untouched(p, ws, |ws|, i) by {
        forall k | 0 <= k < |ws| ensures !Covers(ws[k], i) { assert !Covers(ds[k], i); }
      }
    }
  }

  // ----- the end of the memory -----

  lemma ReachedIsNotRefused(p: Pass, d: VarDesc)
    requires Reachable(d, |p.mem|)
    ensures Visit(p, d).faults != p.faults + [Unprocessed(d.name)]
  {
    var refused := p.faults + [Unprocessed(d.name)];
    assert refused[|p.faults|] == Unprocessed(d.name) && |refused| == |p.faults| + 1;
    assert (p.faults + [Missing(d.name)])[|p.faults|] == Missing(d.name);
    assert (p.faults + [TooLong(d.name)])[|p.faults|] == TooLong(d.name);
  }

  /** Whatever its conditions, a variable is turned away exactly when its region does not end before the
      memory does: a region that is inside and ends with it is refused as well.  Nothing is read or
      written then, only a message is left. */
  lemma LastByteIsRefused(p: Pass, d: VarDesc)
    ensures Visit(p, d) == p.(faults := p.faults + [Unprocessed(d.name)]) <==> |p.mem| <= d.offset + d.size
  {
    hide Visit;
    if Reachable(d, |p.mem|) { ReachedIsNotRefused(p, d); } else { OutOfReach(p, d); }
  }

  lemma OutOfReach(p: Pass, d: VarDesc)
    requires !Reachable(d, |p.mem|)
    ensures Visit(p, d) == p.(faults := p.faults + [Unprocessed(d.name)])
  {
  }
}
