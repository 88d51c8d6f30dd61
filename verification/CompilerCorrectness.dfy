// The expression compiler refines the reference evaluator, for every expression, every row
// and every environment that binds the context's argument.
module CompilerCorrectness {
  import opened Messages
  import opened Expressions
  import opened Codegen
  import opened Refinement

  /** No IS [NOT] DISTINCT FROM has a nullable operand. */
  predicate Sound(s: Schema, e: Expr) {
    match e
    case Column(_) => true
    case Literal(_, _) => true
    case Unary(_, input) => Sound(s, input)
    case Compare(left, op, right) =>
      && Sound(s, left) && Sound(s, right)
      && (op.IsDistinctFrom? || op.IsNotDistinctFrom? ==> !TypeOf(s, left).nullable && !TypeOf(s, right).nullable)
    case Math(left, _, right) => Sound(s, left) && Sound(s, right)
    case StructField(struct, _) => Sound(s, struct)
    case Cast(input, _, _) => Sound(s, input)
    case Coalesce(terms) => forall k :: 0 <= k < |terms| ==> Sound(s, terms[k])
    case NullIf(left, right) => Sound(s, left) && Sound(s, right)
    case CaseMatch(value, arms, default) =>
      && Sound(s, value)
      && (forall k :: 0 <= k < |arms| ==> Sound(s, arms[k].when) && Sound(s, arms[k].result))
      && (default.Some? ==> Sound(s, default.value))
    case CaseWhen(arms, default) =>
      && (forall k :: 0 <= k < |arms| ==> Sound(s, arms[k].when) && Sound(s, arms[k].result))
      && (default.Some? ==> Sound(s, default.value))
    case Udf(_, _, args, _) => forall k :: 0 <= k < |args| ==> Sound(s, args[k])
  }

  predicate RowTyped(s: Schema, row: seq<Val>) {
    |row| == |s| && forall i :: 0 <= i < |s| ==> HasType(s[i], row[i])
  }

  /** The struct that generated code receives for a row. */
  function ArgOf(s: Schema, row: seq<Val>): Val
    requires RowTyped(s, row)
  {
    VStruct(seq(|s|, i requires 0 <= i < |s| => Enc(s[i], row[i])))
  }

  lemma {:induction false} ColumnRefines(p: Prims, s: Schema, row: seq<Val>, i: nat)
    requires RowTyped(s, row) && i < |s|
    ensures Computes(p, FieldOf(Var(Arg), i), ArgOf(s, row), s[i], row[i])
  {
    var arg := ArgOf(s, row);
    assert arg.fields[i] == Enc(s[i], row[i]);
    forall env: Env | Arg in env && env[Arg] == arg
      ensures Run(p, FieldOf(Var(Arg), i), env) == Ok(Enc(s[i], row[i]))
    {
      assert Run(p, Var(Arg), env) == Ok(arg);
    }
  }

  lemma {:induction false} LiteralRefines(p: Prims, arg: Val, base: Base, v: Val)
    requires !base.TStruct? && (v.VNull? || HasBase(base, v))
    ensures Computes(p, if v.VNull? then NoneCode else Lit(v), arg, Ty(base, v.VNull?), v)
  {
    var t := Ty(base, v.VNull?);
    EncParts(t, v);
    assert Enc(t, v) == if v.VNull? then VNone else v;
  }

  // ---------- COALESCE ----------

  /** Terms after the first non-null one are closures that are never entered. */
  lemma {:induction false} CoalesceKeeps(p: Prims, arg: Val, x: Val, result: Code, codes: seq<Code>, nullable: seq<bool>)
    requires |codes| == |nullable| && Yields(p, result, arg, VSome(x))
    ensures Yields(p, CoalesceRest(result, codes, nullable), arg, if false in nullable then x else VSome(x))
    decreases |codes|
  {
    hide Run;
    if codes != [] {
      forall env: Env | Arg in env && env[Arg] == arg
        ensures Run(p, UnwrapOrElse(result, codes[0]), env) == Ok(x)
        ensures Run(p, OrElse(result, codes[0]), env) == Ok(VSome(x))
      {
        StepElse(p, result, codes[0], env, VSome(x), x);
      }
      assert nullable == [nullable[0]] + nullable[1..];
      if nullable[0] {
        CoalesceKeeps(p, arg, x, OrElse(result, codes[0]), codes[1..], nullable[1..]);
      }
    }
  }

  lemma {:induction false} CoalesceFalls(p: Prims, arg: Val, w: Val, result: Code, c: Code)
    requires Yields(p, result, arg, VNone) && Yields(p, c, arg, w)
    ensures Yields(p, UnwrapOrElse(result, c), arg, w) && Yields(p, OrElse(result, c), arg, w)
  {
    hide Run;
    forall env: Env | Arg in env && env[Arg] == arg
      ensures Run(p, UnwrapOrElse(result, c), env) == Ok(w) && Run(p, OrElse(result, c), env) == Ok(w)
    {
      StepElse(p, result, c, env, VNone, w);
    }
  }

  function Codes(s: Schema, terms: seq<Expr>): (r: seq<Code>)
    ensures |r| == |terms|
  {
    seq(|terms|, k requires 0 <= k < |terms| => Generate(s, terms[k]))
  }

  function Nullities(s: Schema, terms: seq<Expr>): (r: seq<bool>)
    ensures |r| == |terms|
  {
    seq(|terms|, k requires 0 <= k < |terms| => TypeOf(s, terms[k]).nullable)
  }

  ghost predicate TermsReady(s: Schema, e: Expr, base: Base, terms: seq<Expr>) {
    forall k :: 0 <= k < |terms| ==>
      terms[k] < e && WellTyped(s, terms[k]) && Sound(s, terms[k]) && TypeOf(s, terms[k]).base == base
  }

  lemma {:induction false} ListsOfTail(s: Schema, terms: seq<Expr>)
    requires terms != []
    ensures Codes(s, terms[1..]) == Codes(s, terms)[1..] && Nullities(s, terms[1..]) == Nullities(s, terms)[1..]
    ensures Codes(s, terms)[0] == Generate(s, terms[0]) && Nullities(s, terms)[0] == TypeOf(s, terms[0]).nullable
    ensures false in Nullities(s, terms) <==> !TypeOf(s, terms[0]).nullable || false in Nullities(s, terms[1..])
  {
    assert Codes(s, terms[1..]) == Codes(s, terms)[1..];
    assert Nullities(s, terms[1..]) == Nullities(s, terms)[1..];
    assert Nullities(s, terms) == [TypeOf(s, terms[0]).nullable] + Nullities(s, terms[1..]);
  }

  /** The remaining terms, once all the code before them has come out as None. */
  lemma {:induction false} CoalesceRestRefines(p: Prims, s: Schema, e: Expr, base: Base, terms: seq<Expr>, row: seq<Val>,
                                               result: Code)
    requires RowTyped(s, row) && TermsReady(s, e, base, terms)
    requires Yields(p, result, ArgOf(s, row), VNone)
    requires EvalFirst(p, s, e, terms, row).Value?
    ensures Computes(p, CoalesceRest(result, Codes(s, terms), Nullities(s, terms)), ArgOf(s, row),
                     Ty(base, false !in Nullities(s, terms)), EvalFirst(p, s, e, terms, row).v)
    decreases e, 1, |terms|
  {
    hide Run, Generate, TypeOf, WellTyped, Sound, Eval, Codes, Nullities, ArgOf, RowTyped, Yields;
    if terms == [] {
      NoTerms(s);
      EncParts(Ty(base, true), VNull);
    } else {
      var arg, t := ArgOf(s, row), TypeOf(s, terms[0]);
      ListsOfTail(s, terms);
      GenerateRefines(p, s, terms[0], row);
      var v := Eval(p, s, terms[0], row).v;
      EncParts(t, v);
      CoalesceFalls(p, arg, Enc(t, v), result, Generate(s, terms[0]));
      if t.nullable {
        if v.VNull? {
          CoalesceRestRefines(p, s, e, base, terms[1..], row, OrElse(result, Generate(s, terms[0])));
        } else {
          CoalesceKeeps(p, arg, EncBase(base, v), OrElse(result, Generate(s, terms[0])),
                        Codes(s, terms[1..]), Nullities(s, terms[1..]));
          EncParts(Ty(base, false !in Nullities(s, terms)), v);
        }
      }
    }
  }

  lemma {:induction false} NoTerms(s: Schema)
    ensures Codes(s, []) == [] && Nullities(s, []) == []
  {
  }

  lemma {:induction false} CoalesceRefines(p: Prims, s: Schema, e: Expr, base: Base, terms: seq<Expr>, row: seq<Val>)
    requires RowTyped(s, row) && TermsReady(s, e, base, terms) && terms != []
    requires EvalFirst(p, s, e, terms, row).Value?
    ensures Computes(p, CoalesceCode(Codes(s, terms), Nullities(s, terms)), ArgOf(s, row),
                     Ty(base, false !in Nullities(s, terms)), EvalFirst(p, s, e, terms, row).v)
    decreases e, 1, |terms| + 1
  {
    hide Run, Generate, TypeOf, WellTyped, Sound, Eval, Codes, Nullities, ArgOf, RowTyped, Yields;
    var arg, t := ArgOf(s, row), TypeOf(s, terms[0]);
    ListsOfTail(s, terms);
    GenerateRefines(p, s, terms[0], row);
    var v := Eval(p, s, terms[0], row).v;
    EncParts(t, v);
    if t.nullable {
      if v.VNull? {
        CoalesceRestRefines(p, s, e, base, terms[1..], row, Generate(s, terms[0]));
      } else {
        CoalesceKeeps(p, arg, EncBase(base, v), Generate(s, terms[0]), Codes(s, terms[1..]), Nullities(s, terms[1..]));
        EncParts(Ty(base, false !in Nullities(s, terms)), v);
      }
    }
  }

  // ---------- CASE ----------

  ghost predicate DefaultReady(s: Schema, e: Expr, base: Base, nullable: bool, default: Option<Expr>) {
    if default.None? then nullable
    else
      && default.value < e && WellTyped(s, default.value) && Sound(s, default.value)
      && TypeOf(s, default.value).base == base && (TypeOf(s, default.value).nullable ==> nullable)
  }

  ghost predicate ArmsReady(s: Schema, e: Expr, tested: Base, base: Base, nullable: bool, arms: seq<Arm>) {
    forall k :: 0 <= k < |arms| ==>
      && arms[k].when < e && WellTyped(s, arms[k].when) && Sound(s, arms[k].when)
      && TypeOf(s, arms[k].when).base == tested
      && arms[k].result < e && WellTyped(s, arms[k].result) && Sound(s, arms[k].result)
      && TypeOf(s, arms[k].result).base == base && (TypeOf(s, arms[k].result).nullable ==> nullable)
  }

  /** The default, or null if there is none. */
  lemma {:induction false} DefaultRefines(p: Prims, s: Schema, e: Expr, base: Base, nullable: bool, default: Option<Expr>,
                                          row: seq<Val>)
    requires RowTyped(s, row) && DefaultReady(s, e, base, nullable, default)
    requires EvalDefault(p, s, e, default, row).Value?
    ensures Computes(p, DefaultCode(s, e, default, nullable), ArgOf(s, row), Ty(base, nullable),
                     EvalDefault(p, s, e, default, row).v)
    decreases e, 1, 0
  {
    hide Run, Generate, TypeOf, WellTyped, Sound, Eval, ArgOf, RowTyped;
    if default.Some? {
      var d := default.value;
      GenerateRefines(p, s, d, row);
      WithNullityRefines(p, Generate(s, d), ArgOf(s, row), TypeOf(s, d), Eval(p, s, d, row).v, nullable);
    } else {
      EncParts(Ty(base, nullable), VNull);
      forall env: Env
        ensures Run(p, NoneCode, env) == Ok(VNone)
      {
        RunNone(p, env);
      }
    }
  }

  /** The test of an arm on a value w of the when expression. */
  lemma {:induction false} ArmTest(p: Prims, when: Code, env: Env, b: Base, w: Val, matched: Option<Val>)
    requires HasType(Ty(b, true), w) && Run(p, when, env) == Ok(Enc(Ty(b, true), w))
    requires if matched.Some? then
               && HasBase(b, matched.value) && ValueVar in env && env[ValueVar] == Enc(Ty(b, true), matched.value)
             else b.TBool?
    ensures var test := if matched.Some? then Infix(when, Cmp(Eq), Var(ValueVar)) else UnwrapOr(when, false);
            Run(p, test, env) == Ok(VBool(w == if matched.Some? then matched.value else VBool(true)))
  {
    hide Run;
    EncParts(Ty(b, true), w);
    if matched.Some? {
      var v := matched.value;
      EncParts(Ty(b, true), v);
      if Enc(Ty(b, true), w) == Enc(Ty(b, true), v) {
        EncInjective(Ty(b, true), w, v);
      }
      StepVar(p, ValueVar, env);
      StepInfix(p, when, Cmp(Eq), Var(ValueVar), env, Enc(Ty(b, true), w), env[ValueVar], VBool(w == v));
    } else {
      StepTests(p, when, env, Enc(Ty(b, true), w));
    }
  }

  lemma {:induction false} ArmsTail(s: Schema, e: Expr, tested: Base, base: Base, nullable: bool, arms: seq<Arm>)
    requires ArmsReady(s, e, tested, base, nullable, arms) && arms != []
    ensures ArmsReady(s, e, tested, base, nullable, arms[1..])
    ensures arms[0].when < e && WellTyped(s, arms[0].when) && Sound(s, arms[0].when)
    ensures TypeOf(s, arms[0].when).base == tested
    ensures arms[0].result < e && WellTyped(s, arms[0].result) && Sound(s, arms[0].result)
    ensures TypeOf(s, arms[0].result).base == base && (TypeOf(s, arms[0].result).nullable ==> nullable)
  {
  }

  /** Arms are tried in order; only the chosen result is evaluated. */
  lemma {:induction false} ArmsRun(p: Prims, s: Schema, e: Expr, tested: Base, base: Base, nullable: bool,
                                   matched: Option<Val>, arms: seq<Arm>, default: Option<Expr>, row: seq<Val>, env: Env)
    requires RowTyped(s, row) && Arg in env && env[Arg] == ArgOf(s, row)
    requires ArmsReady(s, e, tested, base, nullable, arms) && DefaultReady(s, e, base, nullable, default)
    requires if matched.Some? then
               && HasBase(tested, matched.value)
               && ValueVar in env && env[ValueVar] == Enc(Ty(tested, true), matched.value)
             else tested.TBool?
    requires EvalArms(p, s, e, matched, arms, default, row).Value?
    ensures HasType(Ty(base, nullable), EvalArms(p, s, e, matched, arms, default, row).v)
    ensures Run(p, ArmsCode(s, e, matched.Some?, arms, default, nullable), env)
         == Ok(Enc(Ty(base, nullable), EvalArms(p, s, e, matched, arms, default, row).v))
    decreases e, 1, |arms| + 1
  {
    hide *;
    ArmsUnfold(p, s, e, tested, base, nullable, matched, arms, default, row);
    if arms == [] {
      DefaultRefines(p, s, e, base, nullable, default, row);
      ComputesRuns(p, DefaultCode(s, e, default, nullable), ArgOf(s, row), Ty(base, nullable),
                   EvalDefault(p, s, e, default, row).v, env);
    } else {
      ArmsTail(s, e, tested, base, nullable, arms);
      var matching, result := matched.Some?, arms[0].result;
      var test := WithNullity(Generate(s, arms[0].when), TypeOf(s, arms[0].when).nullable, true);
      var chosen := WithNullity(Generate(s, result), TypeOf(s, result).nullable, nullable);
      var rest := ArmsCode(s, e, matching, arms[1..], default, nullable);
      var wanted := if matching then matched.value else VBool(true);
      var w := Eval(p, s, arms[0].when, row).v;
      ResultRuns(p, s, e, arms[0].when, tested, true, row, env);
      ArmTest(p, test, env, tested, w, matched);
      StepIf(p, if matching then Infix(test, Cmp(Eq), Var(ValueVar)) else UnwrapOr(test, false), chosen, rest, env, w == wanted);
      if w == wanted {
        ResultRuns(p, s, e, result, base, nullable, row, env);
      } else {
        ArmsRun(p, s, e, tested, base, nullable, matched, arms[1..], default, row, env);
      }
    }
  }

  lemma {:induction false} ComputesRuns(p: Prims, c: Code, arg: Val, t: Ty, v: Val, env: Env)
    requires Computes(p, c, arg, t, v) && Arg in env && env[Arg] == arg
    ensures HasType(t, v) && Run(p, c, env) == Ok(Enc(t, v))
  {
    hide Run;
  }

  lemma {:induction false} ArmsUnfold(p: Prims, s: Schema, e: Expr, tested: Base, base: Base, nullable: bool,
                                      matched: Option<Val>, arms: seq<Arm>, default: Option<Expr>, row: seq<Val>)
    requires ArmsReady(s, e, tested, base, nullable, arms) && DefaultReady(s, e, base, nullable, default)
    requires EvalArms(p, s, e, matched, arms, default, row).Value?
    ensures default.Some? ==> default.value < e
    ensures arms == [] ==>
              && ArmsCode(s, e, matched.Some?, arms, default, nullable) == DefaultCode(s, e, default, nullable)
              && EvalArms(p, s, e, matched, arms, default, row) == EvalDefault(p, s, e, default, row)
    ensures forall k :: 0 <= k < |arms| ==> arms[k].when < e && arms[k].result < e
    ensures arms != [] ==>
              var test := WithNullity(Generate(s, arms[0].when), TypeOf(s, arms[0].when).nullable, true);
              && Eval(p, s, arms[0].when, row).Value?
              && ArmsCode(s, e, matched.Some?, arms, default, nullable)
              == IfElse(if matched.Some? then Infix(test, Cmp(Eq), Var(ValueVar)) else UnwrapOr(test, false),
                        WithNullity(Generate(s, arms[0].result), TypeOf(s, arms[0].result).nullable, nullable),
                        ArmsCode(s, e, matched.Some?, arms[1..], default, nullable))
              && EvalArms(p, s, e, matched, arms, default, row)
              == if Eval(p, s, arms[0].when, row).v == (if matched.Some? then matched.value else VBool(true))
                 then Eval(p, s, arms[0].result, row) else EvalArms(p, s, e, matched, arms[1..], default, row)
  {
    hide Generate, TypeOf, WellTyped, Sound, Eval, WithNullity;
  }

  lemma {:induction false} ResultRuns(p: Prims, s: Schema, e: Expr, result: Expr, base: Base, nullable: bool,
                                      row: seq<Val>, env: Env)
    requires RowTyped(s, row) && Arg in env && env[Arg] == ArgOf(s, row)
    requires result < e && WellTyped(s, result) && Sound(s, result) && TypeOf(s, result).base == base
    requires TypeOf(s, result).nullable ==> nullable
    requires Eval(p, s, result, row).Value?
    ensures HasType(Ty(base, nullable), Eval(p, s, result, row).v)
    ensures Run(p, WithNullity(Generate(s, result), TypeOf(s, result).nullable, nullable), env)
         == Ok(Enc(Ty(base, nullable), Eval(p, s, result, row).v))
    decreases e, 0, 0
  {
    hide Run, Generate, TypeOf, WellTyped, Sound, Eval, ArgOf, RowTyped, Enc, HasType, WithNullity;
    GenerateRefines(p, s, result, row);
    WithNullityRefines(p, Generate(s, result), ArgOf(s, row), TypeOf(s, result), Eval(p, s, result, row).v, nullable);
  }

  // ---------- user-defined functions ----------

  ghost predicate ArgsReady(s: Schema, e: Expr, params: seq<Ty>, args: seq<Expr>) {
    && |params| == |args|
    && forall k :: 0 <= k < |args| ==>
         && args[k] < e && WellTyped(s, args[k]) && Sound(s, args[k])
         && TypeOf(s, args[k]).base == params[k].base && !params[k].base.TStruct?
  }

  /** Some argument may make the result null without a call. */
  ghost predicate MaySkip(s: Schema, params: seq<Ty>, args: seq<Expr>) {
    exists k :: 0 <= k < |args| && k < |params| && !params[k].nullable && TypeOf(s, args[k]).nullable
  }

  /** The arguments bound so far. */
  ghost predicate SlotsHold(env: Env, done: seq<Val>) {
    forall j :: 0 <= j < |done| ==> Slot(j) in env && Decoded(env[Slot(j)]) == done[j]
  }

  lemma {:induction false} CallRuns(p: Prims, name: string, params: seq<Ty>, ret: Ty, done: seq<Val>, env: Env, wrap: bool)
    requires |done| == |params| && SlotsHold(env, done) && !ret.base.TStruct?
    requires EvalCall(p, name, ret, done).Value? && (wrap ==> !ret.nullable)
    ensures var call := Call(name, params, ret);
            var w := EvalCall(p, name, ret, done).v;
            && HasType(Ty(ret.base, ret.nullable || wrap), w)
            && Run(p, if wrap then SomeCode(call) else call, env) == Ok(Enc(Ty(ret.base, ret.nullable || wrap), w))
  {
    hide Run;
    var call, w := Call(name, params, ret), EvalCall(p, name, ret, done).v;
    StepCall(p, name, params, ret, env);
    if forall k :: 0 <= k < |params| ==> Slot(k) in env {
      assert seq(|params|, k requires 0 <= k < |params| && Slot(k) in env => Decoded(env[Slot(k)])) == done;
    }
    assert RunCall(p, name, params, ret, env) == Ok(Enc(ret, w));
    StepSome(p, call, env, Enc(ret, w));
    EncParts(ret, w);
    EncParts(Ty(ret.base, ret.nullable || wrap), w);
  }

  /** The code that binds one argument, on a value v of the argument's type t. */
  lemma {:induction false} SlotRuns(p: Prims, c: Code, env: Env, param: Ty, t: Ty, v: Val)
    requires HasType(t, v) && Run(p, c, env) == Ok(Enc(t, v)) && t.base == param.base && !t.base.TStruct?
    ensures var code := if param.nullable == t.nullable then c else if param.nullable then SomeCode(c) else Try(c);
            if v.VNull? && !param.nullable then Run(p, code, env) == Return(VNone)
            else Run(p, code, env).Ok? && Decoded(Run(p, code, env).v) == v
  {
    hide Run;
    EncParts(t, v);
    StepSome(p, c, env, Enc(t, v));
    if t.nullable {
      StepTry(p, c, env, Enc(t, v));
    }
  }

  /** Arguments are bound in order; a null for a parameter that takes none returns at once. */
  lemma {:induction false} UdfRuns(p: Prims, s: Schema, e: Expr, name: string, params: seq<Ty>, args: seq<Expr>, ret: Ty,
                                   wrap: bool, done: seq<Val>, row: seq<Val>, env: Env)
    requires RowTyped(s, row) && Arg in env && env[Arg] == ArgOf(s, row)
    requires ArgsReady(s, e, params, args) && |done| <= |args| && !ret.base.TStruct?
    requires wrap == (MaySkip(s, params, args) && !ret.nullable)
    requires SlotsHold(env, done)
    requires EvalUdf(p, s, e, name, params, args, ret, done, row).Value?
    ensures HasType(Ty(ret.base, ret.nullable || wrap), EvalUdf(p, s, e, name, params, args, ret, done, row).v)
    ensures Caught(Run(p, UdfCode(s, e, name, params, args, ret, wrap, |done|), env))
         == Ok(Enc(Ty(ret.base, ret.nullable || wrap), EvalUdf(p, s, e, name, params, args, ret, done, row).v))
    decreases e, 1, |args| - |done| + 1
  {
    hide Run, Generate, TypeOf, WellTyped, Sound, Eval, ArgOf, RowTyped, EvalCall;
    var k := |done|;
    if k == |args| {
      CallRuns(p, name, params, ret, done, env, wrap);
    } else {
      GenerateRefines(p, s, args[k], row);
      var c, t, v := Generate(s, args[k]), TypeOf(s, args[k]), Eval(p, s, args[k], row).v;
      SlotRuns(p, c, env, params[k], t, v);
      var code := if params[k].nullable == t.nullable then c else if params[k].nullable then SomeCode(c) else Try(c);
      var rest := UdfCode(s, e, name, params, args, ret, wrap, k + 1);
      if v.VNull? && !params[k].nullable {
        StepLetReturns(p, Slot(k), code, rest, env, VNone);
        EncParts(t, v);
        assert MaySkip(s, params, args);
        EncParts(Ty(ret.base, ret.nullable || wrap), VNull);
      } else {
        var bound := Run(p, code, env).v;
        StepLet(p, Slot(k), code, rest, env, bound);
        UdfRuns(p, s, e, name, params, args, ret, wrap, done + [v], row, env[Slot(k) := bound]);
      }
    }
  }

  // ---------- the theorem ----------

  /** Case analysis on expressions whose operands are single expressions. */
  lemma {:induction false} SimpleRefines(p: Prims, s: Schema, e: Expr, row: seq<Val>)
    requires WellTyped(s, e) && Sound(s, e) && RowTyped(s, row) && Eval(p, s, e, row).Value?
    requires e.Unary? || e.Compare? || e.Math? || e.StructField? || e.Cast? || e.NullIf?
    ensures Computes(p, Generate(s, e), ArgOf(s, row), TypeOf(s, e), Eval(p, s, e, row).v)
    decreases e, 1, 0
  {
    hide Run, Computes, ArgOf, RowTyped, UnaryCode, CompareCode, BinaryCode, FieldCode, CastCode, NullIfCode,
         EvalUnary, EvalCompare, EvalMath, EvalCast;
    var arg := ArgOf(s, row);
    match e
    case Unary(op, input) =>
      GenerateRefines(p, s, input, row);
      UnaryRefines(p, Generate(s, input), arg, TypeOf(s, input), Eval(p, s, input, row).v, op);
    case Compare(left, op, right) =>
      GenerateRefines(p, s, left, row);
      GenerateRefines(p, s, right, row);
      CompareRefines(p, Generate(s, left), Generate(s, right), arg, TypeOf(s, left), TypeOf(s, right),
                     Eval(p, s, left, row).v, Eval(p, s, right, row).v, op);
    case Math(left, op, right) =>
      GenerateRefines(p, s, left, row);
      GenerateRefines(p, s, right, row);
      MathRefines(p, Generate(s, left), Generate(s, right), arg, TypeOf(s, left), TypeOf(s, right),
                  Eval(p, s, left, row).v, Eval(p, s, right, row).v, op);
    case StructField(struct, i) =>
      GenerateRefines(p, s, struct, row);
      FieldRefines(p, Generate(s, struct), arg, TypeOf(s, struct), Eval(p, s, struct, row).v, i);
    case Cast(input, to, forceNullable) =>
      GenerateRefines(p, s, input, row);
      CastRefines(p, Generate(s, input), arg, TypeOf(s, input), Eval(p, s, input, row).v, to, forceNullable);
    case NullIf(left, right) =>
      GenerateRefines(p, s, left, row);
      GenerateRefines(p, s, right, row);
      NullIfRefines(p, Generate(s, left), Generate(s, right), arg, TypeOf(s, left), TypeOf(s, right),
                    Eval(p, s, left, row).v, Eval(p, s, right, row).v);
  }

  lemma {:induction false} CoalesceCase(p: Prims, s: Schema, e: Expr, row: seq<Val>)
    requires WellTyped(s, e) && Sound(s, e) && RowTyped(s, row) && Eval(p, s, e, row).Value? && e.Coalesce?
    ensures Computes(p, Generate(s, e), ArgOf(s, row), TypeOf(s, e), Eval(p, s, e, row).v)
    decreases e, 1, |e.terms| + 2
  {
    hide Run, Computes, ArgOf, RowTyped, CoalesceCode;
    var terms, base := e.terms, TypeOf(s, e).base;
    CoalesceRefines(p, s, e, base, terms, row);
    assert Generate(s, e) == CoalesceCode(Codes(s, terms), Nullities(s, terms));
    var nullities := Nullities(s, terms);
    assert TypeOf(s, e).nullable <==> false !in nullities by {
      forall k | 0 <= k < |terms|
        ensures nullities[k] == TypeOf(s, terms[k]).nullable
      {
      }
    }
  }

  lemma {:induction false} CaseReady(s: Schema, e: Expr)
    requires WellTyped(s, e) && Sound(s, e) && (e.CaseMatch? || e.CaseWhen?)
    ensures ArmsReady(s, e, if e.CaseMatch? then TypeOf(s, e.value).base else TBool, TypeOf(s, e).base,
                      TypeOf(s, e).nullable, e.arms)
    ensures DefaultReady(s, e, TypeOf(s, e).base, TypeOf(s, e).nullable, e.default)
  {
    hide *;
    if e.CaseMatch? {
      CaseMatchReady(s, e);
    } else {
      CaseWhenReady(s, e);
    }
  }

  lemma {:induction false} CaseMatchReady(s: Schema, e: Expr)
    requires WellTyped(s, e) && Sound(s, e) && e.CaseMatch?
    ensures ArmsReady(s, e, TypeOf(s, e.value).base, TypeOf(s, e).base, TypeOf(s, e).nullable, e.arms)
    ensures DefaultReady(s, e, TypeOf(s, e).base, TypeOf(s, e).nullable, e.default)
  {
    var t := TypeOf(s, e);
    assert forall k :: 0 <= k < |e.arms| && TypeOf(s, e.arms[k].result).nullable ==> t.nullable;
  }

  lemma {:induction false} CaseWhenReady(s: Schema, e: Expr)
    requires WellTyped(s, e) && Sound(s, e) && e.CaseWhen?
    ensures ArmsReady(s, e, TBool, TypeOf(s, e).base, TypeOf(s, e).nullable, e.arms)
    ensures DefaultReady(s, e, TypeOf(s, e).base, TypeOf(s, e).nullable, e.default)
  {
    var t := TypeOf(s, e);
    assert forall k :: 0 <= k < |e.arms| && TypeOf(s, e.arms[k].result).nullable ==> t.nullable;
  }

  lemma {:induction false} CaseMatchCase(p: Prims, s: Schema, e: Expr, row: seq<Val>)
    requires WellTyped(s, e) && Sound(s, e) && RowTyped(s, row) && Eval(p, s, e, row).Value? && e.CaseMatch?
    ensures Computes(p, Generate(s, e), ArgOf(s, row), TypeOf(s, e), Eval(p, s, e, row).v)
    decreases e, 1, |e.arms| + 3
  {
    CaseReady(s, e);
    assert WellTyped(s, e.value) && Sound(s, e.value) && Eval(p, s, e.value, row).Value?;
    hide Run, ArgOf, RowTyped, WithNullity, Eval, TypeOf, WellTyped, Sound, ArmsReady, DefaultReady, Enc, HasType,
         ArmsCode, DefaultCode;
    var arg, value, t := ArgOf(s, row), e.value, TypeOf(s, e);
    var wide := Ty(TypeOf(s, value).base, true);
    GenerateRefines(p, s, value, row);
    var v := Eval(p, s, value, row).v;
    WithNullityRefines(p, Generate(s, value), arg, TypeOf(s, value), v, true);
    var bound := WithNullity(Generate(s, value), TypeOf(s, value).nullable, true);
    var body := IfElse(IsNone(Var(ValueVar)), DefaultCode(s, e, e.default, t.nullable),
                       ArmsCode(s, e, true, e.arms, e.default, t.nullable));
    assert Generate(s, e) == Let(ValueVar, bound, body);
    hide Generate;
    forall env: Env | Arg in env && env[Arg] == arg
      ensures HasType(t, Eval(p, s, e, row).v) && Run(p, Let(ValueVar, bound, body), env) == Ok(Enc(t, Eval(p, s, e, row).v))
    {
      CaseMatchRuns(p, s, e, row, v, bound, env);
    }
    assert Arg in map[Arg := arg];
  }

  lemma {:induction false} CaseMatchRuns(p: Prims, s: Schema, e: Expr, row: seq<Val>, v: Val, bound: Code, env: Env)
    requires RowTyped(s, row) && e.CaseMatch? && Eval(p, s, e, row).Value? && Eval(p, s, e.value, row) == Value(v)
    requires Arg in env && env[Arg] == ArgOf(s, row)
    requires Computes(p, bound, ArgOf(s, row), Ty(TypeOf(s, e.value).base, true), v)
    requires ArmsReady(s, e, TypeOf(s, e.value).base, TypeOf(s, e).base, TypeOf(s, e).nullable, e.arms)
    requires DefaultReady(s, e, TypeOf(s, e).base, TypeOf(s, e).nullable, e.default)
    ensures var t := TypeOf(s, e);
            var body := IfElse(IsNone(Var(ValueVar)), DefaultCode(s, e, e.default, t.nullable),
                               ArmsCode(s, e, true, e.arms, e.default, t.nullable));
            && HasType(t, Eval(p, s, e, row).v)
            && Run(p, Let(ValueVar, bound, body), env) == Ok(Enc(t, Eval(p, s, e, row).v))
    decreases e, 1, |e.arms| + 2
  {
    hide Run, ArgOf, RowTyped, Generate, TypeOf, WellTyped, Sound, ArmsReady, DefaultReady, ArmsCode, DefaultCode;
    var t, wide := TypeOf(s, e), Ty(TypeOf(s, e.value).base, true);
    var default, arms := DefaultCode(s, e, e.default, t.nullable), ArmsCode(s, e, true, e.arms, e.default, t.nullable);
    var inner := env[ValueVar := Enc(wide, v)];
    EncParts(wide, v);
    assert Run(p, bound, env) == Ok(Enc(wide, v));
    StepLet(p, ValueVar, bound, IfElse(IsNone(Var(ValueVar)), default, arms), env, Enc(wide, v));
    StepVar(p, ValueVar, inner);
    StepTests(p, Var(ValueVar), inner, Enc(wide, v));
    StepIf(p, IsNone(Var(ValueVar)), default, arms, inner, v.VNull?);
    if v.VNull? {
      assert Eval(p, s, e, row) == EvalDefault(p, s, e, e.default, row);
      DefaultRefines(p, s, e, t.base, t.nullable, e.default, row);
    } else {
      assert Eval(p, s, e, row) == EvalArms(p, s, e, Some(v), e.arms, e.default, row);
      ArmsRun(p, s, e, wide.base, t.base, t.nullable, Some(v), e.arms, e.default, row, inner);
    }
  }

  lemma {:induction false} CaseWhenCase(p: Prims, s: Schema, e: Expr, row: seq<Val>)
    requires WellTyped(s, e) && Sound(s, e) && RowTyped(s, row) && Eval(p, s, e, row).Value? && e.CaseWhen?
    ensures Computes(p, Generate(s, e), ArgOf(s, row), TypeOf(s, e), Eval(p, s, e, row).v)
    decreases e, 1, |e.arms| + 2
  {
    CaseReady(s, e);
    hide Run, ArgOf, RowTyped, TypeOf, WellTyped, Sound, ArmsReady, DefaultReady, Enc, HasType, ArmsCode, EvalArms;
    var arg, t := ArgOf(s, row), TypeOf(s, e);
    var c, v := Generate(s, e), Eval(p, s, e, row).v;
    forall env: Env | Arg in env && env[Arg] == arg
      ensures HasType(t, v) && Run(p, c, env) == Ok(Enc(t, v))
    {
      ArmsRun(p, s, e, TBool, t.base, t.nullable, None, e.arms, e.default, row, env);
    }
    assert Arg in map[Arg := arg];
  }

  lemma {:induction false} UdfCase(p: Prims, s: Schema, e: Expr, row: seq<Val>)
    requires WellTyped(s, e) && Sound(s, e) && RowTyped(s, row) && Eval(p, s, e, row).Value? && e.Udf?
    ensures Computes(p, Generate(s, e), ArgOf(s, row), TypeOf(s, e), Eval(p, s, e, row).v)
    decreases e, 1, |e.args| + 2
  {
    hide Run, ArgOf, RowTyped;
    var arg, t := ArgOf(s, row), TypeOf(s, e);
    var wrap := t.nullable && !e.ret.nullable;
    assert ArgsReady(s, e, e.params, e.args);
    assert wrap == (MaySkip(s, e.params, e.args) && !e.ret.nullable);
    assert t == Ty(e.ret.base, e.ret.nullable || wrap);
    var c, v := UdfCode(s, e, e.name, e.params, e.args, e.ret, wrap, 0), Eval(p, s, e, row).v;
    forall env: Env | Arg in env && env[Arg] == arg
      ensures HasType(t, v) && Run(p, Invoke(c), env) == Ok(Enc(t, v))
    {
      UdfRuns(p, s, e, e.name, e.params, e.args, e.ret, wrap, [], row, env);
      StepInvoke(p, c, env);
    }
    assert Arg in map[Arg := arg];
  }

  /**
   * Whenever the reference has a value, the generated code has that value, represented as an
   * option exactly when the announced type is nullable. Code refers to nothing but the
   * context's argument: the environment may bind the other names to anything or not at all.
   */
  lemma {:induction false} GenerateRefines(p: Prims, s: Schema, e: Expr, row: seq<Val>)
    requires WellTyped(s, e) && Sound(s, e) && RowTyped(s, row) && Eval(p, s, e, row).Value?
    ensures Computes(p, Generate(s, e), ArgOf(s, row), TypeOf(s, e), Eval(p, s, e, row).v)
    decreases e, 2, 0
  {
    hide Run, Computes, ArgOf;
    match e
    case Column(i) => ColumnRefines(p, s, row, i);
    case Literal(base, scalar) => LiteralRefines(p, ArgOf(s, row), base, scalar);
    case Coalesce(_) => CoalesceCase(p, s, e, row);
    case CaseMatch(_, _, _) => CaseMatchCase(p, s, e, row);
    case CaseWhen(_, _) => CaseWhenCase(p, s, e, row);
    case Udf(_, _, _, _) => UdfCase(p, s, e, row);
    case _ => SimpleRefines(p, s, e, row);
  }

  /**
   * IS [NOT] DISTINCT FROM is announced as nullable as soon as an operand is, but its code
   * never yields an option: it has the announced type exactly if no operand is nullable.
   */
  lemma {:induction false} DistinctIsSoundIff(p: Prims, lc: Code, rc: Code, arg: Val, lt: Ty, rt: Ty, l: Val, r: Val,
                                              op: CompareOp)
    requires Computes(p, lc, arg, lt, l) && Computes(p, rc, arg, rt, r) && lt.base == rt.base
    requires op.IsDistinctFrom? || op.IsNotDistinctFrom?
    ensures Computes(p, CompareCode(op, lt.nullable, rt.nullable, lc, rc), arg,
                     Ty(TBool, lt.nullable || rt.nullable), EvalCompare(op, l, r))
       <==> !lt.nullable && !rt.nullable
  {
    hide Run;
    if lt.nullable || rt.nullable {
      var env := map[Arg := arg];
      StepComparison(p, lc, if op.IsDistinctFrom? then NotEq else Eq, rc, env, Enc(lt, l), Enc(rt, r));
    } else {
      DistinctRefines(p, lc, rc, arg, lt, rt, l, r, op);
    }
  }

  /** Two nullable columns, null and 1: they are distinct, but the code does not have the announced type. */
  lemma {:induction false} DistinctCounterexample(p: Prims)
    ensures var s: Schema := [Ty(TInt, true), Ty(TInt, true)];
            var e, row := Compare(Column(0), IsDistinctFrom, Column(1)), [VNull, VInt(1)];
            && WellTyped(s, e) && RowTyped(s, row) && Eval(p, s, e, row) == Value(VBool(true))
            && !Computes(p, Generate(s, e), ArgOf(s, row), TypeOf(s, e), VBool(true))
  {
    var s: Schema := [Ty(TInt, true), Ty(TInt, true)];
    var row := [VNull, VInt(1)];
    ColumnRefines(p, s, row, 0);
    ColumnRefines(p, s, row, 1);
    DistinctIsSoundIff(p, FieldOf(Var(Arg), 0), FieldOf(Var(Arg), 1), ArgOf(s, row), s[0], s[1], VNull, VInt(1), IsDistinctFrom);
  }
}
