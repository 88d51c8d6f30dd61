// Generated code against the reference evaluator: whenever the reference has a value, the
// code has the same value, represented as the announced type says, in every environment
// that binds the context's argument.
module Refinement {
  import opened Expressions
  import opened Codegen

  /** c evaluates to w wherever the argument is arg, whatever else is in scope. */
  ghost predicate Yields(p: Prims, c: Code, arg: Val, w: Val) {
    forall env: Env :: Arg in env && env[Arg] == arg ==> Run(p, c, env) == Ok(w)
  }

  /** c represents the value v of type t. */
  ghost predicate Computes(p: Prims, c: Code, arg: Val, t: Ty, v: Val) {
    HasType(t, v) && Yields(p, c, arg, Enc(t, v))
  }

  lemma {:induction false} EncBaseInjective(b: Base, v: Val, w: Val)
    requires HasBase(b, v) && HasBase(b, w) && EncBase(b, v) == EncBase(b, w)
    ensures v == w
    decreases b, 0
  {
    if b.TStruct? {
      forall i | 0 <= i < |b.fields|
        ensures v.fields[i] == w.fields[i]
      {
        assert EncBase(b, v).fields[i] == Enc(b.fields[i], v.fields[i]);
        assert EncBase(b, w).fields[i] == Enc(b.fields[i], w.fields[i]);
        EncInjective(b.fields[i], v.fields[i], w.fields[i]);
      }
    }
  }

  /** Different values have different representations. */
  lemma {:induction false} EncInjective(t: Ty, v: Val, w: Val)
    requires HasType(t, v) && HasType(t, w) && Enc(t, v) == Enc(t, w)
    ensures v == w
    decreases t, 1
  {
    if !v.VNull? && !w.VNull? {
      EncBaseInjective(t.base, v, w);
    }
  }

  lemma {:induction false} EncBaseNotOption(b: Base, v: Val)
    requires HasBase(b, v)
    ensures !IsOption(EncBase(b, v))
  {
  }

  lemma {:induction false} EncParts(t: Ty, v: Val)
    requires HasType(t, v)
    ensures v.VNull? ==> Enc(t, v) == VNone && t.nullable
    ensures !v.VNull? ==> HasBase(t.base, v) && !IsOption(EncBase(t.base, v))
    ensures !v.VNull? ==> Enc(t, v) == if t.nullable then VSome(EncBase(t.base, v)) else EncBase(t.base, v)
    ensures !v.VNull? && !t.base.TStruct? ==> EncBase(t.base, v) == v
  {
  }

  // ---------- one step of evaluation at a time ----------

  lemma {:induction false} StepLet(p: Prims, x: Name, d: Code, body: Code, env: Env, v: Val)
    requires Run(p, d, env) == Ok(v)
    ensures Run(p, Let(x, d, body), env) == Run(p, body, env[x := v])
  {
  }

  lemma {:induction false} StepVar(p: Prims, x: Name, env: Env)
    requires x in env
    ensures Run(p, Var(x), env) == Ok(env[x])
  {
  }

  lemma {:induction false} StepInfix(p: Prims, l: Code, op: Operator, r: Code, env: Env, v: Val, w: Val, u: Val)
    requires Run(p, l, env) == Ok(v) && Run(p, r, env) == Ok(w) && Apply(op, v, w) == Ok(u)
    requires op == Cmp(And) && v == VBool(false) ==> u == VBool(false)
    requires op == Cmp(Or) && v == VBool(true) ==> u == VBool(true)
    ensures Run(p, Infix(l, op, r), env) == Ok(u)
  {
  }

  lemma {:induction false} StepComparison(p: Prims, l: Code, op: CompareOp, r: Code, env: Env, v: Val, w: Val)
    requires Run(p, l, env) == Ok(v) && Run(p, r, env) == Ok(w)
    ensures forall u :: Run(p, Infix(l, Cmp(op), r), env) == Ok(u) ==> u.VBool?
  {
  }

  lemma {:induction false} StepMapNone(p: Prims, d: Code, x: Name, body: Code, env: Env)
    requires Run(p, d, env) == Ok(VNone)
    ensures Run(p, MapOption(d, x, body), env) == Ok(VNone)
  {
  }

  lemma {:induction false} StepMapSome(p: Prims, d: Code, x: Name, body: Code, env: Env, v: Val, w: Val)
    requires Run(p, d, env) == Ok(VSome(v)) && Run(p, body, env[x := v]) == Ok(w)
    ensures Run(p, MapOption(d, x, body), env) == Ok(VSome(w))
  {
  }

  lemma {:induction false} StepField(p: Prims, d: Code, i: nat, env: Env, v: Val)
    requires Run(p, d, env) == Ok(v) && v.VStruct? && i < |v.fields|
    ensures Run(p, FieldOf(d, i), env) == Ok(v.fields[i])
  {
  }

  lemma {:induction false} StepFlatten(p: Prims, d: Code, env: Env, v: Val)
    requires Run(p, d, env) == Ok(v) && (v.VNone? || (v.VSome? && IsOption(v.v)))
    ensures Run(p, FlattenOption(d), env) == Ok(if v.VNone? then v else v.v)
  {
  }

  lemma {:induction false} StepCast(p: Prims, from: Base, to: Base, d: Code, env: Env, v: Val, w: Val)
    requires Run(p, d, env) == Ok(v) && EvalCast(p, from, to, v) == Value(w)
    ensures Run(p, CastTo(from, to, d), env) == Ok(w)
  {
  }

  lemma {:induction false} StepMatchBoth(p: Prims, x: Name, y: Name, body: Code, env: Env)
    requires x in env && y in env && IsOption(env[x]) && IsOption(env[y]) && x != y
    ensures env[x].VNone? || env[y].VNone? ==> Run(p, MatchBoth(x, y, body), env) == Ok(VNone)
    ensures env[x].VSome? && env[y].VSome? ==>
              forall w :: Run(p, body, env[x := env[x].v][y := env[y].v]) == Ok(w) ==>
                            Run(p, MatchBoth(x, y, body), env) == Ok(VSome(w))
  {
  }

  lemma {:induction false} StepIf(p: Prims, d: Code, t: Code, f: Code, env: Env, b: bool)
    requires Run(p, d, env) == Ok(VBool(b))
    ensures Run(p, IfElse(d, t, f), env) == Run(p, if b then t else f, env)
  {
  }

  lemma {:induction false} StepMatchEqual(p: Prims, d: Code, x: Name, guard: Code, otherwise_: Code, env: Env)
    ensures Run(p, d, env) == Ok(VNone) ==> Run(p, MatchEqual(d, x, guard, otherwise_), env) == Run(p, otherwise_, env)
    ensures forall v, b :: Run(p, d, env) == Ok(VSome(v)) && Run(p, guard, env[x := v]) == Ok(VBool(b)) ==>
              Run(p, MatchEqual(d, x, guard, otherwise_), env) == if b then Ok(VNone) else Run(p, otherwise_, env)
  {
  }

  lemma {:induction false} StepSome(p: Prims, d: Code, env: Env, v: Val)
    requires Run(p, d, env) == Ok(v)
    ensures Run(p, SomeCode(d), env) == Ok(VSome(v))
  {
  }

  lemma {:induction false} StepElse(p: Prims, d: Code, e: Code, env: Env, v: Val, w: Val)
    requires Run(p, d, env) == Ok(v) && IsOption(v) && (v.VNone? ==> Run(p, e, env) == Ok(w))
    ensures Run(p, OrElse(d, e), env) == Ok(if v.VSome? then v else w)
    ensures Run(p, UnwrapOrElse(d, e), env) == Ok(if v.VSome? then v.v else w)
  {
  }

  lemma {:induction false} StepTry(p: Prims, d: Code, env: Env, v: Val)
    requires Run(p, d, env) == Ok(v) && IsOption(v)
    ensures Run(p, Try(d), env) == if v.VSome? then Ok(v.v) else Return(VNone)
  {
  }

  lemma {:induction false} StepLetReturns(p: Prims, x: Name, d: Code, body: Code, env: Env, v: Val)
    requires Run(p, d, env) == Return(v)
    ensures Run(p, Let(x, d, body), env) == Return(v)
  {
  }

  lemma {:induction false} StepInvoke(p: Prims, d: Code, env: Env)
    ensures Run(p, Invoke(d), env) == Caught(Run(p, d, env))
  {
  }

  lemma {:induction false} StepCall(p: Prims, udf: string, params: seq<Ty>, ret: Ty, env: Env)
    ensures Run(p, Call(udf, params, ret), env) == RunCall(p, udf, params, ret, env)
  {
  }

  // ---------- expressions without lists ----------

  lemma {:induction false} StepTests(p: Prims, c: Code, env: Env, v: Val)
    requires Run(p, c, env) == Ok(v) && IsOption(v)
    ensures Run(p, IsSome(c), env) == Ok(VBool(v.VSome?)) && Run(p, IsNone(c), env) == Ok(VBool(v.VNone?))
    ensures forall b :: Run(p, UnwrapOr(c, b), env) == Ok(if v.VSome? then v.v else VBool(b))
  {
  }

  lemma {:induction false} StepNot(p: Prims, c: Code, env: Env, b: bool)
    requires Run(p, c, env) == Ok(VBool(b))
    ensures Run(p, Not(c), env) == Ok(VBool(!b))
  {
  }

  lemma {:induction false} StepNegate(p: Prims, c: Code, env: Env, i: int)
    requires Run(p, c, env) == Ok(VInt(i))
    ensures Run(p, Negate(c), env) == Ok(VInt(-i))
  {
  }

  lemma {:induction false} StepLit(p: Prims, v: Val, env: Env)
    ensures Run(p, Lit(v), env) == Ok(v)
  {
  }

  /** Null and truth tests; of the value only whether it is null, true or false matters. */
  lemma {:induction false} TestRuns(p: Prims, c: Code, env: Env, nullable: bool, v: Val, w: Val, op: UnaryOp)
    requires Run(p, c, env) == Ok(w) && !op.Negative?
    requires if v.VNull? then nullable && w == VNone else if nullable then w.VSome? else !IsOption(w)
    requires op.IsNull? || op.IsNotNull? || v.VNull? || (v.VBool? && w == if nullable then VSome(v) else v)
    ensures Run(p, UnaryCode(op, nullable, c), env) == Ok(EvalUnary(op, v))
  {
    hide Run;
    if nullable {
      StepTests(p, c, env, w);
      if op.IsFalse? {
        StepNot(p, UnwrapOr(c, true), env, v != VBool(false));
      } else if op.IsNotTrue? {
        StepNot(p, UnwrapOr(c, false), env, v == VBool(true));
      }
    } else {
      StepLit(p, VBool(true), env);
      StepLit(p, VBool(false), env);
      if op.IsFalse? || op.IsNotTrue? {
        StepNot(p, c, env, v.b);
      }
    }
  }

  lemma {:induction false} NegativeRuns(p: Prims, c: Code, env: Env, t: Ty, v: Val)
    requires HasType(t, v) && Run(p, c, env) == Ok(Enc(t, v)) && t.base.TInt?
    ensures HasType(t, EvalUnary(Negative, v))
    ensures Run(p, UnaryCode(Negative, t.nullable, c), env) == Ok(Enc(t, EvalUnary(Negative, v)))
  {
    hide Run;
    EncParts(t, v);
    EncParts(t, EvalUnary(Negative, v));
    if t.nullable {
      if v.VNull? {
        StepMapNone(p, c, X, Negate(Var(X)), env);
      } else {
        StepVar(p, X, env[X := v]);
        StepNegate(p, Var(X), env[X := v], v.i);
        StepMapSome(p, c, X, Negate(Var(X)), env, v, VInt(-v.i));
      }
    } else {
      StepNegate(p, c, env, v.i);
    }
  }

  lemma {:induction false} UnaryRuns(p: Prims, c: Code, env: Env, t: Ty, v: Val, op: UnaryOp)
    requires HasType(t, v) && Run(p, c, env) == Ok(Enc(t, v))
    requires if op.Negative? then t.base.TInt? else op.IsNull? || op.IsNotNull? || t.base.TBool?
    ensures var t' := if op.Negative? then t else Ty(TBool, false);
            HasType(t', EvalUnary(op, v)) && Run(p, UnaryCode(op, t.nullable, c), env) == Ok(Enc(t', EvalUnary(op, v)))
  {
    hide Run, UnaryCode;
    if op.Negative? {
      NegativeRuns(p, c, env, t, v);
    } else {
      EncParts(t, v);
      TestRuns(p, c, env, t.nullable, v, Enc(t, v), op);
    }
  }

  lemma {:induction false} UnaryRefines(p: Prims, c: Code, arg: Val, t: Ty, v: Val, op: UnaryOp)
    requires Computes(p, c, arg, t, v)
    requires if op.Negative? then t.base.TInt? else op.IsNull? || op.IsNotNull? || t.base.TBool?
    ensures Computes(p, UnaryCode(op, t.nullable, c), arg, if op.Negative? then t else Ty(TBool, false), EvalUnary(op, v))
  {
    hide Run, HasType, Enc, UnaryCode, EvalUnary;
    forall env: Env | Arg in env && env[Arg] == arg
      ensures var t' := if op.Negative? then t else Ty(TBool, false);
              HasType(t', EvalUnary(op, v)) && Run(p, UnaryCode(op, t.nullable, c), env) == Ok(Enc(t', EvalUnary(op, v)))
    {
      UnaryRuns(p, c, env, t, v, op);
    }
    assert Arg in map[Arg := arg];
  }

  /** Operators on the representations of two non-null values. */
  lemma {:induction false} ApplyCompare(op: CompareOp, b: Base, l: Val, r: Val)
    requires HasBase(b, l) && HasBase(b, r)
    requires op.And? || op.Or? ==> b.TBool?
    requires op.Lt? || op.LtEq? || op.Gt? || op.GtEq? ==> b.TInt?
    ensures Apply(Cmp(op), EncBase(b, l), EncBase(b, r)) == Ok(VBool(Compared(op, l, r)))
  {
    EncBaseNotOption(b, l);
    EncBaseNotOption(b, r);
    if EncBase(b, l) == EncBase(b, r) {
      EncBaseInjective(b, l, r);
    }
  }

  /** The operator has the value w on the representations, and agrees with short-circuiting. */
  ghost predicate OperatorGives(op: Operator, l: Val, r: Val, w: Val) {
    && Apply(op, l, r) == Ok(w)
    && (op == Cmp(And) && l == VBool(false) ==> w == VBool(false))
    && (op == Cmp(Or) && l == VBool(true) ==> w == VBool(true))
  }

  lemma {:induction false} BothNullable(p: Prims, lc: Code, rc: Code, arg: Val, l: Val, r: Val, op: Operator, w: Val,
                                        env: Env)
    requires Yields(p, lc, arg, l) && Yields(p, rc, arg, r) && IsOption(l) && IsOption(r)
    requires l.VSome? && r.VSome? ==> OperatorGives(op, l.v, r.v, w)
    requires Arg in env && env[Arg] == arg
    ensures Run(p, BinaryCode(op, true, true, lc, rc), env) == Ok(if l.VSome? && r.VSome? then VSome(w) else VNone)
  {
    hide Run;
    var env1 := env[LeftVar := l];
    var env2 := env1[RightVar := r];
    var body := Infix(Var(LeftVar), op, Var(RightVar));
    assert Run(p, lc, env) == Ok(l) && Run(p, rc, env1) == Ok(r);
    StepLet(p, LeftVar, lc, Let(RightVar, rc, MatchBoth(LeftVar, RightVar, body)), env, l);
    StepLet(p, RightVar, rc, MatchBoth(LeftVar, RightVar, body), env1, r);
    StepMatchBoth(p, LeftVar, RightVar, body, env2);
    if l.VSome? && r.VSome? {
      var env3 := env2[LeftVar := l.v][RightVar := r.v];
      StepVar(p, LeftVar, env3);
      StepVar(p, RightVar, env3);
      StepInfix(p, Var(LeftVar), op, Var(RightVar), env3, l.v, r.v, w);
    }
  }

  lemma {:induction false} LeftNullable(p: Prims, lc: Code, rc: Code, arg: Val, l: Val, r: Val, op: Operator, w: Val,
                                        env: Env)
    requires Yields(p, lc, arg, l) && Yields(p, rc, arg, r) && IsOption(l)
    requires l.VSome? ==> OperatorGives(op, l.v, r, w)
    requires Arg in env && env[Arg] == arg
    ensures Run(p, BinaryCode(op, true, false, lc, rc), env) == Ok(if l.VSome? then VSome(w) else VNone)
  {
    hide Run;
    var body := Infix(Var(LeftVar), op, rc);
    assert Run(p, lc, env) == Ok(l);
    if l.VSome? {
      var env2 := env[LeftVar := l.v];
      assert Run(p, rc, env2) == Ok(r);
      StepVar(p, LeftVar, env2);
      StepInfix(p, Var(LeftVar), op, rc, env2, l.v, r, w);
      StepMapSome(p, lc, LeftVar, body, env, l.v, w);
    } else {
      StepMapNone(p, lc, LeftVar, body, env);
    }
  }

  lemma {:induction false} RightNullable(p: Prims, lc: Code, rc: Code, arg: Val, l: Val, r: Val, op: Operator, w: Val,
                                         env: Env)
    requires Yields(p, lc, arg, l) && Yields(p, rc, arg, r) && IsOption(r)
    requires r.VSome? ==> OperatorGives(op, l, r.v, w)
    requires Arg in env && env[Arg] == arg
    ensures Run(p, BinaryCode(op, false, true, lc, rc), env) == Ok(if r.VSome? then VSome(w) else VNone)
  {
    hide Run;
    var body := Infix(lc, op, Var(RightVar));
    assert Run(p, rc, env) == Ok(r);
    if r.VSome? {
      var env2 := env[RightVar := r.v];
      assert Run(p, lc, env2) == Ok(l);
      StepVar(p, RightVar, env2);
      StepInfix(p, lc, op, Var(RightVar), env2, l, r.v, w);
      StepMapSome(p, rc, RightVar, body, env, r.v, w);
    } else {
      StepMapNone(p, rc, RightVar, body, env);
    }
  }

  lemma {:induction false} NeitherNullable(p: Prims, lc: Code, rc: Code, arg: Val, l: Val, r: Val, op: Operator, w: Val,
                                           env: Env)
    requires Yields(p, lc, arg, l) && Yields(p, rc, arg, r) && OperatorGives(op, l, r, w)
    requires Arg in env && env[Arg] == arg
    ensures Run(p, BinaryCode(op, false, false, lc, rc), env) == Ok(w)
  {
    hide Run;
    assert Run(p, lc, env) == Ok(l) && Run(p, rc, env) == Ok(r);
    StepInfix(p, lc, op, rc, env, l, r, w);
  }

  /** The common shape of comparisons and arithmetic: null as soon as an operand is. */
  lemma {:induction false} BinaryRefines(p: Prims, lc: Code, rc: Code, arg: Val, lt: Ty, rt: Ty, l: Val, r: Val,
                                         op: Operator, w: Val)
    requires Computes(p, lc, arg, lt, l) && Computes(p, rc, arg, rt, r)
    requires !l.VNull? && !r.VNull? ==> OperatorGives(op, EncBase(lt.base, l), EncBase(rt.base, r), w)
    ensures Yields(p, BinaryCode(op, lt.nullable, rt.nullable, lc, rc), arg,
                   if l.VNull? || r.VNull? then VNone else if lt.nullable || rt.nullable then VSome(w) else w)
  {
    hide Run;
    EncParts(lt, l);
    EncParts(rt, r);
    forall env: Env | Arg in env && env[Arg] == arg
      ensures Run(p, BinaryCode(op, lt.nullable, rt.nullable, lc, rc), env)
           == Ok(if l.VNull? || r.VNull? then VNone else if lt.nullable || rt.nullable then VSome(w) else w)
    {
      if lt.nullable && rt.nullable {
        BothNullable(p, lc, rc, arg, Enc(lt, l), Enc(rt, r), op, w, env);
      } else if lt.nullable {
        LeftNullable(p, lc, rc, arg, Enc(lt, l), Enc(rt, r), op, w, env);
      } else if rt.nullable {
        RightNullable(p, lc, rc, arg, Enc(lt, l), Enc(rt, r), op, w, env);
      } else {
        NeitherNullable(p, lc, rc, arg, Enc(lt, l), Enc(rt, r), op, w, env);
      }
    }
  }

  lemma {:induction false} StrictCompareRefines(p: Prims, lc: Code, rc: Code, arg: Val, lt: Ty, rt: Ty, l: Val, r: Val,
                                                op: CompareOp)
    requires Computes(p, lc, arg, lt, l) && Computes(p, rc, arg, rt, r) && lt.base == rt.base
    requires op.And? || op.Or? ==> lt.base.TBool?
    requires op.Lt? || op.LtEq? || op.Gt? || op.GtEq? ==> lt.base.TInt?
    requires !op.IsDistinctFrom? && !op.IsNotDistinctFrom?
    ensures Computes(p, BinaryCode(Cmp(op), lt.nullable, rt.nullable, lc, rc), arg,
                     Ty(TBool, lt.nullable || rt.nullable), EvalCompare(op, l, r))
  {
    hide Run, BinaryCode, Yields, Apply;
    EncParts(lt, l);
    EncParts(rt, r);
    if !l.VNull? && !r.VNull? {
      ApplyCompare(op, lt.base, l, r);
    }
    var t, w := Ty(TBool, lt.nullable || rt.nullable), EvalCompare(op, l, r);
    EncParts(t, w);
    BinaryRefines(p, lc, rc, arg, lt, rt, l, r, Cmp(op), VBool(Compared(op, l, r)));
  }

  /** Two operators compare nulls; their code is a comparison of the representations. */
  lemma {:induction false} DistinctRefines(p: Prims, lc: Code, rc: Code, arg: Val, lt: Ty, rt: Ty, l: Val, r: Val,
                                           op: CompareOp)
    requires Computes(p, lc, arg, lt, l) && Computes(p, rc, arg, rt, r) && lt.base == rt.base
    requires op.IsDistinctFrom? || op.IsNotDistinctFrom?
    requires !lt.nullable && !rt.nullable
    ensures Computes(p, CompareCode(op, false, false, lc, rc), arg, Ty(TBool, false), EvalCompare(op, l, r))
  {
    hide Run, Yields, Apply;
    var emitted := if op.IsDistinctFrom? then NotEq else Eq;
    StrictCompareRefines(p, lc, rc, arg, lt, rt, l, r, emitted);
    assert EvalCompare(emitted, l, r) == EvalCompare(op, l, r);
  }

  lemma {:induction false} CompareRefines(p: Prims, lc: Code, rc: Code, arg: Val, lt: Ty, rt: Ty, l: Val, r: Val,
                                          op: CompareOp)
    requires Computes(p, lc, arg, lt, l) && Computes(p, rc, arg, rt, r) && lt.base == rt.base
    requires op.And? || op.Or? ==> lt.base.TBool?
    requires op.Lt? || op.LtEq? || op.Gt? || op.GtEq? ==> lt.base.TInt?
    requires op.IsDistinctFrom? || op.IsNotDistinctFrom? ==> !lt.nullable && !rt.nullable
    ensures Computes(p, CompareCode(op, lt.nullable, rt.nullable, lc, rc), arg,
                     Ty(TBool, lt.nullable || rt.nullable), EvalCompare(op, l, r))
  {
    hide Computes, BinaryCode, EvalCompare;
    if op.IsDistinctFrom? || op.IsNotDistinctFrom? {
      DistinctRefines(p, lc, rc, arg, lt, rt, l, r, op);
    } else {
      StrictCompareRefines(p, lc, rc, arg, lt, rt, l, r, op);
    }
  }

  lemma {:induction false} MathRefines(p: Prims, lc: Code, rc: Code, arg: Val, lt: Ty, rt: Ty, l: Val, r: Val, op: MathOp)
    requires Computes(p, lc, arg, lt, l) && Computes(p, rc, arg, rt, r) && lt.base == rt.base == TInt
    requires EvalMath(op, l, r).Value?
    ensures Computes(p, BinaryCode(Arith(op), lt.nullable, rt.nullable, lc, rc), arg,
                     Ty(lt.base, lt.nullable || rt.nullable), EvalMath(op, l, r).v)
  {
    hide Run, Yields;
    EncParts(lt, l);
    EncParts(rt, r);
    var w := EvalMath(op, l, r).v;
    assert !l.VNull? && !r.VNull? ==> w.VInt?;
    var t := Ty(lt.base, lt.nullable || rt.nullable);
    assert HasType(t, w);
    EncParts(t, w);
    BinaryRefines(p, lc, rc, arg, lt, rt, l, r, Arith(op), w);
    hide BinaryCode;
    assert Yields(p, BinaryCode(Arith(op), lt.nullable, rt.nullable, lc, rc), arg, Enc(t, w));
  }

  lemma {:induction false} FieldRefines(p: Prims, c: Code, arg: Val, t: Ty, v: Val, i: nat)
    requires Computes(p, c, arg, t, v) && t.base.TStruct? && i < |t.base.fields|
    ensures v.VNull? || (v.VStruct? && i < |v.fields|)
    ensures var field := t.base.fields[i];
            Computes(p, FieldCode(t.nullable, field.nullable, c, i), arg,
                     if t.nullable then Ty(field.base, true) else field,
                     if v.VNull? then VNull else v.fields[i])
  {
    var field := t.base.fields[i];
    EncParts(t, v);
    if !v.VNull? {
      assert HasBase(t.base, v);
      EncParts(field, v.fields[i]);
      assert EncBase(t.base, v).fields[i] == Enc(field, v.fields[i]);
    }
    var w := if v.VNull? then VNull else v.fields[i];
    var wide := if t.nullable then Ty(field.base, true) else field;
    assert HasType(wide, w);
    forall env: Env | Arg in env && env[Arg] == arg
      ensures Run(p, FieldCode(t.nullable, field.nullable, c, i), env) == Ok(Enc(wide, w))
    {
      FieldRuns(p, c, arg, t, v, i, env);
    }
  }

  lemma {:induction false} FieldRuns(p: Prims, c: Code, arg: Val, t: Ty, v: Val, i: nat, env: Env)
    requires Computes(p, c, arg, t, v) && t.base.TStruct? && i < |t.base.fields|
    requires Arg in env && env[Arg] == arg
    requires !v.VNull? ==> v.VStruct? && |v.fields| == |t.base.fields| && HasType(t.base.fields[i], v.fields[i])
    ensures Run(p, FieldCode(t.nullable, t.base.fields[i].nullable, c, i), env)
         == Ok(if v.VNull? then VNone
               else if t.nullable && !t.base.fields[i].nullable then VSome(Enc(t.base.fields[i], v.fields[i]))
               else Enc(t.base.fields[i], v.fields[i]))
  {
    hide Run;
    EncParts(t, v);
    var body, field := FieldOf(Var(Arg), i), t.base.fields[i];
    assert Run(p, c, env) == Ok(Enc(t, v));
    if v.VNull? {
      StepMapNone(p, c, Arg, body, env);
      StepFlatten(p, MapOption(c, Arg, body), env, VNone);
    } else {
      var inner, value := EncBase(t.base, v), Enc(field, v.fields[i]);
      assert inner.fields[i] == value;
      if t.nullable {
        StepVar(p, Arg, env[Arg := inner]);
        StepField(p, Var(Arg), i, env[Arg := inner], inner);
        StepMapSome(p, c, Arg, body, env, inner, value);
        if field.nullable {
          StepFlatten(p, MapOption(c, Arg, body), env, VSome(value));
        }
      } else {
        StepField(p, c, i, env, inner);
      }
    }
  }

  lemma {:induction false} CastRuns(p: Prims, c: Code, t: Ty, v: Val, to: Base, forceNullable: bool, env: Env)
    requires HasType(t, v) && Run(p, c, env) == Ok(Enc(t, v)) && !t.base.TStruct? && !to.TStruct?
    requires EvalCast(p, t.base, to, v).Value?
    ensures var w, t' := EvalCast(p, t.base, to, v).v, Ty(to, t.nullable || forceNullable);
            HasType(t', w) && Run(p, CastCode(t.base, to, t.nullable, forceNullable, c), env) == Ok(Enc(t', w))
  {
    hide Run;
    var w, t' := EvalCast(p, t.base, to, v).v, Ty(to, t.nullable || forceNullable);
    EncParts(t, v);
    EncParts(t', w);
    if t.nullable {
      if v.VNull? {
        StepMapNone(p, c, X, CastTo(t.base, to, Var(X)), env);
      } else {
        StepVar(p, X, env[X := v]);
        StepCast(p, t.base, to, Var(X), env[X := v], v, w);
        StepMapSome(p, c, X, CastTo(t.base, to, Var(X)), env, v, w);
      }
    } else {
      StepCast(p, t.base, to, c, env, v, w);
      StepSome(p, CastTo(t.base, to, c), env, w);
    }
  }

  lemma {:induction false} CastRefines(p: Prims, c: Code, arg: Val, t: Ty, v: Val, to: Base, forceNullable: bool)
    requires Computes(p, c, arg, t, v) && !t.base.TStruct? && !to.TStruct?
    requires EvalCast(p, t.base, to, v).Value?
    ensures Computes(p, CastCode(t.base, to, t.nullable, forceNullable, c), arg,
                     Ty(to, t.nullable || forceNullable), EvalCast(p, t.base, to, v).v)
  {
    hide Run, HasType, Enc, CastCode, EvalCast;
    var w, t' := EvalCast(p, t.base, to, v).v, Ty(to, t.nullable || forceNullable);
    forall env: Env | Arg in env && env[Arg] == arg
      ensures HasType(t', w) && Run(p, CastCode(t.base, to, t.nullable, forceNullable, c), env) == Ok(Enc(t', w))
    {
      CastRuns(p, c, t, v, to, forceNullable, env);
    }
    assert Arg in map[Arg := arg];
  }

  lemma {:induction false} NullIfRefines(p: Prims, lc: Code, rc: Code, arg: Val, lt: Ty, rt: Ty, l: Val, r: Val)
    requires Computes(p, lc, arg, lt, l) && Computes(p, rc, arg, rt, r) && lt.base == rt.base
    ensures Computes(p, NullIfCode(lt.nullable, rt.nullable, lc, rc), arg, Ty(lt.base, true), if l == r then VNull else l)
  {
    hide Run;
    forall env: Env | Arg in env && env[Arg] == arg
      ensures Run(p, NullIfCode(lt.nullable, rt.nullable, lc, rc), env)
           == Ok(Enc(Ty(lt.base, true), if l == r then VNull else l))
    {
      NullIfRuns(p, lc, rc, arg, lt, rt, l, r, env);
    }
  }

  lemma {:induction false} EqualRuns(p: Prims, b: Base, l: Val, r: Val, env: Env)
    requires HasBase(b, l) && HasBase(b, r)
    requires LeftVar in env && env[LeftVar] == EncBase(b, l) && RightVar in env && env[RightVar] == EncBase(b, r)
    ensures Run(p, Infix(Var(LeftVar), Cmp(Eq), Var(RightVar)), env) == Ok(VBool(l == r))
  {
    hide Run;
    ApplyCompare(Eq, b, l, r);
    StepVar(p, LeftVar, env);
    StepVar(p, RightVar, env);
    StepInfix(p, Var(LeftVar), Cmp(Eq), Var(RightVar), env, EncBase(b, l), EncBase(b, r), VBool(l == r));
  }

  lemma {:induction false} EqualOptionsRun(p: Prims, b: Base, l: Val, r: Val, env: Env)
    requires HasType(Ty(b, true), l) && HasType(Ty(b, true), r)
    requires LeftVar in env && env[LeftVar] == Enc(Ty(b, true), l) && RightVar in env && env[RightVar] == Enc(Ty(b, true), r)
    ensures Run(p, Infix(Var(LeftVar), Cmp(Eq), Var(RightVar)), env) == Ok(VBool(l == r))
  {
    hide Run;
    var lv, rv := Enc(Ty(b, true), l), Enc(Ty(b, true), r);
    if lv == rv {
      EncInjective(Ty(b, true), l, r);
    }
    StepVar(p, LeftVar, env);
    StepVar(p, RightVar, env);
    StepInfix(p, Var(LeftVar), Cmp(Eq), Var(RightVar), env, lv, rv, VBool(l == r));
  }

  lemma {:induction false} NullIfRuns(p: Prims, lc: Code, rc: Code, arg: Val, lt: Ty, rt: Ty, l: Val, r: Val, env: Env)
    requires Computes(p, lc, arg, lt, l) && Computes(p, rc, arg, rt, r) && lt.base == rt.base
    requires Arg in env && env[Arg] == arg
    ensures HasType(Ty(lt.base, true), if l == r then VNull else l)
    ensures Run(p, NullIfCode(lt.nullable, rt.nullable, lc, rc), env)
         == Ok(Enc(Ty(lt.base, true), if l == r then VNull else l))
  {
    hide Run;
    var b, lv, rv := lt.base, Enc(lt, l), Enc(rt, r);
    var env1 := env[LeftVar := lv];
    var env2 := env1[RightVar := rv];
    var equal := Infix(Var(LeftVar), Cmp(Eq), Var(RightVar));
    assert Run(p, lc, env) == Ok(lv) && Run(p, rc, env1) == Ok(rv);
    var body := if lt.nullable && rt.nullable then IfElse(equal, NoneCode, Var(LeftVar))
                else if lt.nullable then MatchEqual(Var(LeftVar), LeftVar, equal, Var(LeftVar))
                else if rt.nullable then MatchEqual(Var(RightVar), RightVar, equal, SomeCode(Var(LeftVar)))
                else IfElse(equal, NoneCode, SomeCode(Var(LeftVar)));
    StepLet(p, LeftVar, lc, Let(RightVar, rc, body), env, lv);
    StepLet(p, RightVar, rc, body, env1, rv);
    StepVar(p, LeftVar, env2);
    StepVar(p, RightVar, env2);
    StepSome(p, Var(LeftVar), env2, lv);
    RunNone(p, env2);
    EncParts(lt, l);
    EncParts(rt, r);
    if lt.nullable && rt.nullable {
      EqualOptionsRun(p, b, l, r, env2);
      StepIf(p, equal, NoneCode, Var(LeftVar), env2, l == r);
    } else if lt.nullable {
      StepMatchEqual(p, Var(LeftVar), LeftVar, equal, Var(LeftVar), env2);
      if !l.VNull? {
        EqualRuns(p, b, l, r, env2[LeftVar := lv.v]);
      }
    } else if rt.nullable {
      StepMatchEqual(p, Var(RightVar), RightVar, equal, SomeCode(Var(LeftVar)), env2);
      if !r.VNull? {
        EqualRuns(p, b, l, r, env2[RightVar := rv.v]);
      }
    } else {
      EqualRuns(p, b, l, r, env2);
      StepIf(p, equal, NoneCode, SomeCode(Var(LeftVar)), env2, l == r);
    }
  }

  lemma {:induction false} RunNone(p: Prims, env: Env)
    ensures Run(p, NoneCode, env) == Ok(VNone)
  {
  }

  lemma {:induction false} WithNullityRefines(p: Prims, c: Code, arg: Val, t: Ty, v: Val, wanted: bool)
    requires Computes(p, c, arg, t, v) && (t.nullable ==> wanted)
    ensures Computes(p, WithNullity(c, t.nullable, wanted), arg, Ty(t.base, wanted), v)
  {
    hide Run;
    EncParts(t, v);
    EncParts(Ty(t.base, wanted), v);
    forall env: Env | Arg in env && env[Arg] == arg
      ensures Run(p, WithNullity(c, t.nullable, wanted), env) == Ok(Enc(Ty(t.base, wanted), v))
    {
      StepSome(p, c, env, Enc(t, v));
    }
  }
}
