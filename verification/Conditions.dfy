/** What the conditions of blocks, subprograms and exchanged variables mean: expression trees over the
    values of variables, read without the solver. */
module Conditions {
  import opened Common
  import opened Values
  import opened Formula

  /** Values a condition takes for false: those of a fresh variable of each type, and a negative zero. */
  predicate Unset(v: Value) {
    || v == BoolV(false) || v == IntV(0) || v == StrV([])
    || v == RealV([0, 0, 0, 0, 0, 0, 0, 0]) || v == RealV([0, 0, 0, 0, 0, 0, 0, 128])
  }

  /** The tree is true of the variables v. */
  predicate Meets(e: Expr, v: Params) {
    match e
    case Leaf(n) => n in v && !Unset(v[n])
    case Un(_, a) => !Meets(a, v)
    case Bin(op, a, b) => if op == "&" then Meets(a, v) && Meets(b, v) else Meets(a, v) || Meets(b, v)
  }

  /** A tree of conjunctions, disjunctions and negations over variables of v that are no operators. */
  predicate Condition(e: Expr, v: Params) {
    match e
    case Leaf(n) => n in v && n != "&" && n != "|" && n != "!"
    case Un(op, a) => op == "!" && Condition(a, v)
    case Bin(op, a, b) => (op == "&" || op == "|") && Condition(a, v) && Condition(b, v)
  }

  /** The table of readings a condition is solved on. */
  function Readings(v: Params): map<string, bool> {
    map k | k in v :: IsSet(v[k])
  }

  lemma SetIff(v: Value)
    ensures IsSet(v) <==> !Unset(v)
  {
    UnsetIsDefault(v);
  }

  lemma OperatorsAre(n: string)
    ensures n in LogicOps() <==> n == "&" || n == "|" || n == "!"
    ensures n in LogicOps() && n == "!" ==> LogicOps()[n].Unary?
    ensures n in LogicOps() && n != "!" ==> LogicOps()[n].Binary?
  {
  }

  lemma {:induction false} MeetsIsEval(e: Expr, v: Params)
    requires Condition(e, v)
    ensures Wf(LogicOps(), e) && Bound(Readings(v), e) && Eval(LogicOps(), Readings(v), e) == Meets(e, v)
    decreases e
  {
    match e
    case Leaf(n) =>
      OperatorsAre(n);
      SetIff(v[n]);
    case Un(op, a) =>
      MeetsIsEval(a, v);
      OperatorsAre(op);
    case Bin(op, a, b) =>
      MeetsIsEval(a, v);
      MeetsIsEval(b, v);
      OperatorsAre(op);
  }

  lemma {:induction false} ConditionIff(e: Expr, v: Params)
    ensures Condition(e, v) <==> Wf(LogicOps(), e) && Bound(Readings(v), e)
    decreases e
  {
    match e
    case Leaf(n) => OperatorsAre(n);
    case Un(op, a) => ConditionIff(a, v); OperatorsAre(op);
    case Bin(op, a, b) => ConditionIff(a, v); ConditionIff(b, v); OperatorsAre(op);
  }

  lemma PostfixNotEmpty(e: Expr)
    ensures Postfix(e) != []
  {
  }

  /** The solver on the readings of the variables computes the meaning of the tree. */
  lemma SolvesMeaning(e: Expr, v: Params, default: bool)
    requires Condition(e, v)
    ensures Solve(LogicOps(), Postfix(e), Readings(v), default) == Ok(Meets(e, v))
  {
    hide Postfix, Eval, LogicOps, Readings;
    MeetsIsEval(e, v);
    SolvePostfixIsEval(LogicOps(), Readings(v), e, default);
  }

  /** One variable: true exactly when it is neither the value of a fresh variable nor a negative zero;
      not to be solved when there is no such variable. */
  lemma OneVariable(n: string, v: Params, default: bool)
    requires n != "&" && n != "|" && n != "!"
    ensures Solve(LogicOps(), [n], Readings(v), default) == if n in v then Ok(!Unset(v[n])) else Throw(OutOfRange)
  {
    if n in v {
      assert Postfix(Leaf(n)) == [n];
      SolvesMeaning(Leaf(n), v, default);
    } else {
      OperatorsAre(n);
      assert Step(LogicOps(), Readings(v), n, 0, []) == Throw(OutOfRange);
    }
  }

  ghost predicate Conditions(es: seq<Expr>, v: Params) {
    forall e <- es :: Condition(e, v)
  }

  function Meanings(es: seq<Expr>, v: Params): seq<bool> {
    seq(|es|, i requires 0 <= i < |es| => Meets(es[i], v))
  }

  lemma {:induction false} SpelledRun(es: seq<Expr>, v: Params, suf: seq<string>, toks: seq<string>)
    requires Conditions(es, v) && toks == Postfixes(es) + suf
    ensures Run(LogicOps(), Readings(v), toks, 0, []) ==
            Run(LogicOps(), Readings(v), toks, |Postfixes(es)|, Meanings(es, v))
    decreases |es|
  {
    hide Postfix, Eval, LogicOps, Readings, Meets, Condition, Run;
    if es == [] {
      assert Meanings(es, v) == [];
    } else {
      var init, e := es[..|es| - 1], es[|es| - 1];
      assert Condition(e, v);
      assert toks == Postfixes(init) + (Postfix(e) + suf) == Postfixes(init) + Postfix(e) + suf;
      SpelledRun(init, v, Postfix(e) + suf, toks);
      MeetsIsEval(e, v);
      RunPostfix(LogicOps(), Readings(v), e, Postfixes(init), suf, toks, Meanings(init, v));
      assert Meanings(es, v) == Meanings(init, v) + [Meets(e, v)];
    }
  }

  /** A formula that spells conditions one after another means the last of them. */
  lemma SpelledSolves(es: seq<Expr>, v: Params, default: bool)
    requires es != [] && Conditions(es, v)
    ensures Solve(LogicOps(), Postfixes(es), Readings(v), default) == Ok(Meets(es[|es| - 1], v))
  {
    var toks := Postfixes(es);
    assert toks == toks + [];
    SpelledRun(es, v, [], toks);
    PostfixNotEmpty(es[|es| - 1]);
  }

  /** Any formula: an empty one has the default value; another is solved exactly when it spells conditions
      one after another, and then means the last of them. */
  lemma AnyFormula(toks: seq<string>, v: Params, default: bool)
    ensures toks == [] ==> Solve(LogicOps(), toks, Readings(v), default) == Ok(default)
    ensures toks != [] ==>
              (Solve(LogicOps(), toks, Readings(v), default).Ok? <==>
               exists es: seq<Expr> {:trigger Postfixes(es)} :: Postfixes(es) == toks && Conditions(es, v))
    ensures forall es: seq<Expr> {:trigger Postfixes(es)} | es != [] && Postfixes(es) == toks && Conditions(es, v) ::
              Solve(LogicOps(), toks, Readings(v), default) == Ok(Meets(es[|es| - 1], v))
  {
    hide Postfix, Eval, LogicOps, Readings, Meets, Condition, Run, Conditions;
    forall es: seq<Expr> | es != [] && Postfixes(es) == toks && Conditions(es, v)
      ensures Solve(LogicOps(), toks, Readings(v), default) == Ok(Meets(es[|es| - 1], v))
    {
      SpelledSolves(es, v, default);
    }
    if toks != [] && Solve(LogicOps(), toks, Readings(v), default).Ok? {
      var fs := RunEvaluatesTrees(LogicOps(), Readings(v), toks, 0, [], []);
      assert Postfixes(fs) == toks;
      assert Conditions(fs, v) by { AllConditions(fs, v); }
    }
  }

  lemma AllConditions(es: seq<Expr>, v: Params)
    requires forall e <- es :: Wf(LogicOps(), e) && Bound(Readings(v), e)
    ensures Conditions(es, v)
  {
    forall e | e in es ensures Condition(e, v) { ConditionIff(e, v); }
  }
}
