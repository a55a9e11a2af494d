/** StdFormulaSolver: a postfix formula run on a stack. */
module Formula {
  import opened Common

  datatype Op<!T> = Unary(f: T -> T) | Binary(g: (T, T) -> T)

  type Ops<!T> = map<string, Op<T>>

  function Arity<T>(op: Op<T>): nat {
    if op.Unary? then 1 else 2
  }

  /** LogicOperations: the table of the power and exchange conditions. */
  function LogicOps(): Ops<bool> {
    map["&" := Binary((a, b) => a && b), "|" := Binary((a, b) => a || b), "!" := Unary(a => !a)]
  }

  /** One turn of the loop of solve on token number pos; the top of the stack is last. */
  function Step<T>(ops: Ops<T>, m: map<string, T>, tok: string, pos: nat, st: seq<T>): Outcome<seq<T>> {
    if tok !in ops then
      if tok in m then Ok(st + [m[tok]]) else Throw(OutOfRange)
    else if |st| < Arity(ops[tok]) then
      Throw(InvalidArgs(tok, pos, |st|, Arity(ops[tok])))
    else
      match ops[tok]
      case Unary(f) => Ok(st[..|st| - 1] + [f(st[|st| - 1])])
      case Binary(g) => Ok(st[..|st| - 2] + [g(st[|st| - 2], st[|st| - 1])])
  }

  function Run<T>(ops: Ops<T>, m: map<string, T>, toks: seq<string>, pos: nat, st: seq<T>): Outcome<seq<T>>
    requires pos <= |toks|
    decreases |toks| - pos
  {
    if pos == |toks| then Ok(st)
    else
      match Step(ops, m, toks[pos], pos, st)
      case Throw(e) => Throw(e)
      case Ok(st') => Run(ops, m, toks, pos + 1, st')
  }

  lemma {:induction false} RunKeepsStackNonEmpty<T>(ops: Ops<T>, m: map<string, T>, toks: seq<string>, pos: nat,
          st: seq<T>)
    requires pos <= |toks| && (st != [] || pos < |toks|)
    ensures Run(ops, m, toks, pos, st).Ok? ==> Run(ops, m, toks, pos, st).value != []
    decreases |toks| - pos
  {
    if pos < |toks| {
      var s := Step(ops, m, toks[pos], pos, st);
      if s.Ok? { RunKeepsStackNonEmpty(ops, m, toks, pos + 1, s.value); }
    }
  }

  /** solve on an operand table that already holds the read values; an absent formula has the
      default value. */
  function Solve<T>(ops: Ops<T>, toks: seq<string>, m: map<string, T>, default: T): Outcome<T> {
    if toks == [] then Ok(default)
    else
      RunKeepsStackNonEmpty(ops, m, toks, 0, []);
      match Run(ops, m, toks, 0, [])
      case Throw(e) => Throw(e)
      case Ok(st) => Ok(st[|st| - 1])
  }

  /** solve as the loop it is. */
  method SolveByStack<T>(ops: Ops<T>, toks: seq<string>, m: map<string, T>, default: T) returns (r: Outcome<T>)
    ensures r == Solve(ops, toks, m, default)
  {
    if toks == [] { return Ok(default); }
    var st: seq<T> := [];
    var pos := 0;
    while pos < |toks|
      invariant 0 <= pos <= |toks|
      invariant pos > 0 ==> st != []
      invariant Run(ops, m, toks, pos, st) == Run(ops, m, toks, 0, [])
    {
      var tok := toks[pos];
      if tok !in ops {
        if tok !in m { return Throw(OutOfRange); }
        st := st + [m[tok]];
      } else {
        match ops[tok] {
          case Unary(f) =>
            if |st| < 1 { return Throw(InvalidArgs(tok, pos, |st|, 1)); }
            var v := st[|st| - 1];
            st := st[..|st| - 1] + [f(v)];
          case Binary(g) =>
            if |st| < 2 { return Throw(InvalidArgs(tok, pos, |st|, 2)); }
            var v2 := st[|st| - 1];
            var v1 := st[|st| - 2];
            st := st[..|st| - 2] + [g(v1, v2)];
        }
      }
      pos := pos + 1;
    }
    return Ok(st[|st| - 1]);
  }

  // ----- the meaning: expression trees -----

  datatype Expr = Leaf(name: string) | Un(op: string, e: Expr) | Bin(op: string, l: Expr, r: Expr)

  predicate Wf<T>(ops: Ops<T>, e: Expr) {
    match e
    case Leaf(n) => n !in ops
    case Un(op, a) => op in ops && ops[op].Unary? && Wf(ops, a)
    case Bin(op, a, b) => op in ops && ops[op].Binary? && Wf(ops, a) && Wf(ops, b)
  }

  predicate WfAll<T>(ops: Ops<T>, es: seq<Expr>) {
    forall e <- es :: Wf(ops, e)
  }

  function Postfix(e: Expr): seq<string> {
    match e
    case Leaf(n) => [n]
    case Un(op, a) => Postfix(a) + [op]
    case Bin(op, a, b) => Postfix(a) + Postfix(b) + [op]
  }

  /** Postfix forms written one after another. */
  function Postfixes(es: seq<Expr>): seq<string> {
    if es == [] then [] else Postfixes(es[..|es| - 1]) + Postfix(es[|es| - 1])
  }

  predicate Bound<T>(m: map<string, T>, e: Expr) {
    match e
    case Leaf(n) => n in m
    case Un(_, a) => Bound(m, a)
    case Bin(_, a, b) => Bound(m, a) && Bound(m, b)
  }

  function Eval<T>(ops: Ops<T>, m: map<string, T>, e: Expr): T
    requires Wf(ops, e) && Bound(m, e)
  {
    match e
    case Leaf(n) => m[n]
    case Un(op, a) => ops[op].f(Eval(ops, m, a))
    case Bin(op, a, b) => ops[op].g(Eval(ops, m, a), Eval(ops, m, b))
  }

  ghost predicate Evals<T>(ops: Ops<T>, m: map<string, T>, es: seq<Expr>, vs: seq<T>) {
    && |es| == |vs|
    && forall i | 0 <= i < |es| :: Wf(ops, es[i]) && Bound(m, es[i]) && vs[i] == Eval(ops, m, es[i])
  }

  predicate OperandsBound<T>(ops: Ops<T>, m: map<string, T>, toks: seq<string>) {
    forall t <- toks :: t in ops || t in m
  }

  // ----- the decomposition theorem -----

  /** Net number of values a token list leaves: operands push one, binary operators remove one. */
  function Depth<T>(ops: Ops<T>, toks: seq<string>): int {
    if toks == [] then 0
    else
      Depth(ops, toks[..|toks| - 1]) +
      (var t := toks[|toks| - 1]; if t !in ops then 1 else 1 - Arity(ops[t]))
  }

  /** Token number i cannot be executed: an operand without a value, or an operator whose prefix
      leaves too few values. */
  predicate Offends<T>(ops: Ops<T>, m: map<string, T>, toks: seq<string>, i: nat)
    requires i < |toks|
  {
    if toks[i] in ops then Depth(ops, toks[..i]) < Arity(ops[toks[i]]) else toks[i] !in m
  }

  /** The trees on the stack after a prefix of the tokens has been executed. */
  function PushTree<T>(ops: Ops<T>, tok: string, es: seq<Expr>): seq<Expr>
    requires tok in ops ==> |es| >= Arity(ops[tok])
  {
    if tok !in ops then es + [Leaf(tok)]
    else if ops[tok].Unary? then es[..|es| - 1] + [Un(tok, es[|es| - 1])]
    else es[..|es| - 2] + [Bin(tok, es[|es| - 2], es[|es| - 1])]
  }

  lemma {:induction false} PostfixesSnoc(es: seq<Expr>, e: Expr)
    ensures Postfixes(es + [e]) == Postfixes(es) + Postfix(e)
  {
    assert (es + [e])[..|es + [e]| - 1] == es;
  }

  /** Executing one token on a stack of trees appends that token to what the stack spells. */
  lemma {:induction false} PushTreeSpells<T>(ops: Ops<T>, tok: string, es: seq<Expr>)
    requires WfAll(ops, es)
    requires tok in ops ==> |es| >= Arity(ops[tok])
    ensures WfAll(ops, PushTree(ops, tok, es))
    ensures Postfixes(PushTree(ops, tok, es)) == Postfixes(es) + [tok]
  {
    hide Postfixes;
    if tok !in ops {
      PostfixesSnoc(es, Leaf(tok));
    } else if ops[tok].Unary? {
      UnarySpells(tok, es[..|es| - 1], es[|es| - 1]);
      assert es[|es| - 1] in es;
      assert es == es[..|es| - 1] + [es[|es| - 1]];
    } else {
      BinarySpells(tok, es[..|es| - 2], es[|es| - 2], es[|es| - 1]);
      assert es[|es| - 1] in es && es[|es| - 2] in es;
      assert es == es[..|es| - 2] + [es[|es| - 2]] + [es[|es| - 1]];
    }
  }

  lemma {:induction false} UnarySpells(op: string, rest: seq<Expr>, a: Expr)
    ensures Postfixes(rest + [Un(op, a)]) == Postfixes(rest + [a]) + [op]
  {
    PostfixesSnoc(rest, a);
    PostfixesSnoc(rest, Un(op, a));
    assert Postfixes(rest) + (Postfix(a) + [op]) == Postfixes(rest) + Postfix(a) + [op];
  }

  lemma {:induction false} BinarySpells(op: string, rest: seq<Expr>, a: Expr, b: Expr)
    ensures Postfixes(rest + [Bin(op, a, b)]) == Postfixes(rest + [a] + [b]) + [op]
  {
    PostfixesSnoc(rest, a);
    PostfixesSnoc(rest + [a], b);
    PostfixesSnoc(rest, Bin(op, a, b));
    assert Postfixes(rest) + (Postfix(a) + Postfix(b) + [op]) == Postfixes(rest) + Postfix(a) + Postfix(b) + [op];
  }

  /** Undoes PushTree for the last token spelled by a non-empty stack. */
  function PopTree(es: seq<Expr>): seq<Expr>
    requires es != []
  {
    var rest := es[..|es| - 1];
    match es[|es| - 1]
    case Leaf(_) => rest
    case Un(_, a) => rest + [a]
    case Bin(_, a, b) => rest + [a, b]
  }

  function LastToken(es: seq<Expr>): string
    requires es != []
  {
    match es[|es| - 1]
    case Leaf(n) => n
    case Un(op, _) => op
    case Bin(op, _, _) => op
  }

  lemma {:induction false} PopTreeInverts<T>(ops: Ops<T>, es: seq<Expr>)
    requires es != [] && WfAll(ops, es)
    ensures WfAll(ops, PopTree(es))
    ensures LastToken(es) in ops ==> |PopTree(es)| >= Arity(ops[LastToken(es)])
    ensures PushTree(ops, LastToken(es), PopTree(es)) == es
    ensures Postfixes(es) == Postfixes(PopTree(es)) + [LastToken(es)]
  {
    var popped := PopTree(es);
    assert es == es[..|es| - 1] + [es[|es| - 1]];
    assert Wf(ops, es[|es| - 1]);
    forall e | e in popped ensures Wf(ops, e) {
      assert e in es || es[|es| - 1].Un? || es[|es| - 1].Bin?;
    }
    PushTreeSpells(ops, LastToken(es), popped);
  }

  /** A token list is the concatenation of postfix forms of at most one list of trees. */
  lemma {:induction false} DecompositionUnique<T>(ops: Ops<T>, es: seq<Expr>, fs: seq<Expr>)
    requires WfAll(ops, es) && WfAll(ops, fs)
    requires Postfixes(es) == Postfixes(fs)
    ensures es == fs
    decreases |Postfixes(es)|
  {
    if es != [] { PopTreeInverts(ops, es); }
    if fs != [] { PopTreeInverts(ops, fs); }
    if es != [] && fs != [] {
      var p, q := Postfixes(PopTree(es)), Postfixes(PopTree(fs));
      assert (p + [LastToken(es)])[|p|] == (q + [LastToken(fs)])[|q|];
      assert p == (p + [LastToken(es)])[..|p|] == (q + [LastToken(fs)])[..|q|] == q;
      DecompositionUnique(ops, PopTree(es), PopTree(fs));
    }
  }

  /** What solve throws when token i is the first that cannot be executed. */
  ghost predicate FailsAt<T>(ops: Ops<T>, m: map<string, T>, toks: seq<string>, i: nat, e: Exn) {
    && i < |toks|
    && Offends(ops, m, toks, i)
    && (forall j | 0 <= j < i :: !Offends(ops, m, toks, j))
    && if toks[i] in ops
       then e.InvalidArgs? && e.op == toks[i] && e.position == i
            && e.presented == Depth(ops, toks[..i]) && e.expected == Arity(ops[toks[i]])
       else e == OutOfRange
  }

  lemma DepthSnoc<T>(ops: Ops<T>, toks: seq<string>, i: nat)
    requires i < |toks|
    ensures Depth(ops, toks[..i + 1]) ==
            Depth(ops, toks[..i]) + if toks[i] !in ops then 1 else 1 - Arity(ops[toks[i]])
  {
    assert toks[..i + 1][..i] == toks[..i];
  }

  lemma {:induction false} StepEvaluatesTree<T>(ops: Ops<T>, m: map<string, T>, tok: string, pos: nat, st: seq<T>,
          es: seq<Expr>)
    requires Evals(ops, m, es, st)
    requires Step(ops, m, tok, pos, st).Ok?
    ensures tok in ops ==> |es| >= Arity(ops[tok])
    ensures Evals(ops, m, PushTree(ops, tok, es), Step(ops, m, tok, pos, st).value)
  {
  }

  /** The value stack always holds the values of the trees its tokens spell. */
  lemma {:induction false} RunEvaluatesTrees<T>(ops: Ops<T>, m: map<string, T>, toks: seq<string>,
                                                      pos: nat, st: seq<T>, es: seq<Expr>)
    returns (fs: seq<Expr>)
    requires pos <= |toks|
    requires Evals(ops, m, es, st) && Postfixes(es) == toks[..pos] && |es| == Depth(ops, toks[..pos])
    requires forall j | 0 <= j < pos :: !Offends(ops, m, toks, j)
    ensures var r := Run(ops, m, toks, pos, st);
            if r.Ok? then
              && Evals(ops, m, fs, r.value) && Postfixes(fs) == toks
              && forall j | 0 <= j < |toks| :: !Offends(ops, m, toks, j)
            else
              exists i: nat :: FailsAt(ops, m, toks, i, r.exn)
    decreases |toks| - pos
  {
    hide Postfixes, PushTree, Eval;
    if pos == |toks| {
      assert toks[..pos] == toks;
      fs := es;
    } else {
      var tok := toks[pos];
      match Step(ops, m, tok, pos, st) {
        case Throw(e) =>
          assert FailsAt(ops, m, toks, pos, e);
          fs := [];
        case Ok(st') =>
          StepEvaluatesTree(ops, m, tok, pos, st, es);
          assert WfAll(ops, es);
          PushTreeSpells(ops, tok, es);
          DepthSnoc(ops, toks, pos);
          assert toks[..pos + 1] == toks[..pos] + [tok];
          fs := RunEvaluatesTrees(ops, m, toks, pos + 1, st', PushTree(ops, tok, es));
      }
    }
  }

  /** Complete description of solve on a non-empty formula: it succeeds exactly when no token
      offends, and then the tokens split in one way only into the postfix forms of at least one
      tree and the result is the value of the last; otherwise it reports the first offender. */
  lemma SolveDecomposes<T>(ops: Ops<T>, m: map<string, T>, toks: seq<string>, default: T) returns (fs: seq<Expr>)
    requires toks != []
    ensures var r := Solve(ops, toks, m, default);
            && (r.Ok? <==> forall i | 0 <= i < |toks| :: !Offends(ops, m, toks, i))
            && (r.Throw? ==> exists i: nat :: FailsAt(ops, m, toks, i, r.exn))
            && (r.Ok? ==>
                  && |fs| >= 1 && WfAll(ops, fs) && Postfixes(fs) == toks
                  && Bound(m, fs[|fs| - 1]) && r.value == Eval(ops, m, fs[|fs| - 1])
                  && forall gs: seq<Expr> | WfAll(ops, gs) && Postfixes(gs) == toks :: gs == fs)
  {
    fs := RunEvaluatesTrees(ops, m, toks, 0, [], []);
    forall gs: seq<Expr> | WfAll(ops, gs) && WfAll(ops, fs) && Postfixes(gs) == toks == Postfixes(fs)
      ensures gs == fs
    {
      DecompositionUnique(ops, gs, fs);
    }
  }

  /** Running the postfix form of a tree computes the tree. */
  lemma SolvePostfixIsEval<T>(ops: Ops<T>, m: map<string, T>, e: Expr, default: T)
    requires Wf(ops, e) && Bound(m, e)
    ensures Solve(ops, Postfix(e), m, default) == Ok(Eval(ops, m, e))
  {
    RunPostfix(ops, m, e, [], [], Postfix(e), []);
  }

  /** What the three operators of a condition mean. */
  lemma LogicMeaning(m: map<string, bool>, a: string, b: string, default: bool)
    requires a in m && b in m && a !in LogicOps() && b !in LogicOps()
    ensures Solve(LogicOps(), [a, b, "&"], m, default) == Ok(m[a] && m[b])
    ensures Solve(LogicOps(), [a, b, "|"], m, default) == Ok(m[a] || m[b])
    ensures Solve(LogicOps(), [a, "!"], m, default) == Ok(!m[a])
  {
    var ops := LogicOps();
    var and, or, not := Bin("&", Leaf(a), Leaf(b)), Bin("|", Leaf(a), Leaf(b)), Un("!", Leaf(a));
    assert Postfix(and) == [a, b, "&"] && Postfix(or) == [a, b, "|"] && Postfix(not) == [a, "!"];
    SolvePostfixIsEval(ops, m, and, default);
    SolvePostfixIsEval(ops, m, or, default);
    SolvePostfixIsEval(ops, m, not, default);
  }

  /** A postfix form inside a longer formula pushes exactly the value of its tree. */
  lemma {:induction false} RunPostfix<T>(ops: Ops<T>, m: map<string, T>, e: Expr,
                                         pre: seq<string>, suf: seq<string>, toks: seq<string>, st: seq<T>)
    requires Wf(ops, e) && Bound(m, e)
    requires toks == pre + Postfix(e) + suf
    ensures Run(ops, m, toks, |pre|, st) == Run(ops, m, toks, |pre + Postfix(e)|, st + [Eval(ops, m, e)])
    decreases e
  {
    match e
    case Leaf(n) =>
    case Un(op, a) =>
      assert toks == pre + Postfix(a) + ([op] + suf);
      RunPostfix(ops, m, a, pre, [op] + suf, toks, st);
      RunOperator(ops, m, op, toks, |pre + Postfix(a)|, st, [Eval(ops, m, a)]);
    case Bin(op, a, b) =>
      RunBinary(ops, m, op, a, b, pre, suf, toks, st);
  }

  lemma {:induction false} RunBinary<T>(ops: Ops<T>, m: map<string, T>, op: string, a: Expr, b: Expr,
                                        pre: seq<string>, suf: seq<string>, toks: seq<string>, st: seq<T>)
    requires Wf(ops, Bin(op, a, b)) && Bound(m, a) && Bound(m, b)
    requires toks == pre + (Postfix(a) + Postfix(b) + [op]) + suf
    ensures Run(ops, m, toks, |pre|, st) ==
            Run(ops, m, toks, |pre + Postfix(a) + Postfix(b)| + 1, st + [ops[op].g(Eval(ops, m, a), Eval(ops, m, b))])
    decreases Bin(op, a, b), 0
  {
    var pa, pb, va, vb := Postfix(a), Postfix(b), Eval(ops, m, a), Eval(ops, m, b);
    assert toks == pre + pa + (pb + [op] + suf) == (pre + pa) + pb + ([op] + suf);
    RunPostfix(ops, m, a, pre, pb + [op] + suf, toks, st);
    RunPostfix(ops, m, b, pre + pa, [op] + suf, toks, st + [va]);
    assert st + [va] + [vb] == st + [va, vb];
    RunOperator(ops, m, op, toks, |pre + pa + pb|, st, [va, vb]);
  }

  lemma RunOperator<T>(ops: Ops<T>, m: map<string, T>, op: string, toks: seq<string>, pos: nat, st: seq<T>,
                       args: seq<T>)
    requires pos < |toks| && toks[pos] == op
    requires op in ops && |args| == Arity(ops[op])
    ensures Run(ops, m, toks, pos, st + args) ==
            Run(ops, m, toks, pos + 1,
                st + [if ops[op].Unary? then ops[op].f(args[0]) else ops[op].g(args[0], args[1])])
  {
    assert (st + args)[..|st|] == st;
  }

  /** The solver never raises invalid_operation: what is not an operator is taken as an operand. */
  lemma {:induction false} NeverInvalidOp<T>(ops: Ops<T>, m: map<string, T>, toks: seq<string>, pos: nat, st: seq<T>)
    requires pos <= |toks|
    ensures var r := Run(ops, m, toks, pos, st); r.Throw? ==> r.exn.InvalidArgs? || r.exn.OutOfRange?
    ensures OperandsBound(ops, m, toks) ==> var r := Run(ops, m, toks, pos, st); r.Throw? ==> r.exn.InvalidArgs?
    decreases |toks| - pos
  {
    if pos < |toks| {
      var s := Step(ops, m, toks[pos], pos, st);
      if s.Ok? { NeverInvalidOp(ops, m, toks, pos + 1, s.value); }
    }
  }
}
