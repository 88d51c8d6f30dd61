// What the operators of generated code compute: the laws of arithmetic, order and logic, as
// results of running the code that the compiler emits. Together with refinement they say what a
// compiled expression is worth, and not only that it is worth what the reference says.
module OperatorLaws {
  import opened Messages
  import opened Expressions
  import opened Codegen
  import opened Refinement
  import opened CompilerCorrectness

  // ---------- code for two literals ----------

  function MathOf(op: MathOp, a: int, b: int): Expr {
    Math(Literal(TInt, VInt(a)), op, Literal(TInt, VInt(b)))
  }

  /** The outcome of the code for a op b. */
  function Ran(p: Prims, env: Env, op: MathOp, a: int, b: int): Outcome {
    Run(p, Generate([], MathOf(op, a, b)), env)
  }

  predicate Ints(o: Outcome) {
    o.Ok? && o.v.VInt?
  }

  function CompareOf(op: CompareOp, base: Base, v: Val, w: Val): Expr {
    Compare(Literal(base, v), op, Literal(base, w))
  }

  /** The code for v op w says true. */
  predicate Holds(p: Prims, env: Env, op: CompareOp, base: Base, v: Val, w: Val) {
    Run(p, Generate([], CompareOf(op, base, v, w)), env) == Ok(VBool(true))
  }

  predicate Fails(p: Prims, env: Env, op: CompareOp, base: Base, v: Val, w: Val) {
    Run(p, Generate([], CompareOf(op, base, v, w)), env) == Ok(VBool(false))
  }

  lemma {:induction false} RanIs(p: Prims, env: Env, op: MathOp, a: int, b: int)
    ensures Ran(p, env, op, a, b) == match Computed(op, a, b) case Value(v) => Ok(v) case Panicked => Panic
  {
    assert Generate([], MathOf(op, a, b)) == Infix(Lit(VInt(a)), Arith(op), Lit(VInt(b)));
    assert Run(p, Lit(VInt(a)), env) == Ok(VInt(a)) && Run(p, Lit(VInt(b)), env) == Ok(VInt(b));
  }

  // ---------- arithmetic ----------

  /** Adding nothing changes nothing, and adding one more gives one more. */
  lemma {:induction false} PlusRuns(p: Prims, env: Env, a: int, b: int)
    ensures Ran(p, env, Plus, a, 0) == Ok(VInt(a))
    ensures Ints(Ran(p, env, Plus, a, b))
    ensures Ran(p, env, Plus, a, b + 1) == Ok(VInt(Ran(p, env, Plus, a, b).v.i + 1))
  {
    hide Run, Generate;
    RanIs(p, env, Plus, a, 0);
    RanIs(p, env, Plus, a, b);
    RanIs(p, env, Plus, a, b + 1);
  }

  /** Subtraction undoes addition. */
  lemma {:induction false} MinusRuns(p: Prims, env: Env, a: int, b: int)
    ensures Ints(Ran(p, env, Plus, a, b)) && Ints(Ran(p, env, Minus, a, b))
    ensures Ran(p, env, Minus, Ran(p, env, Plus, a, b).v.i, b) == Ok(VInt(a))
    ensures Ran(p, env, Plus, Ran(p, env, Minus, a, b).v.i, b) == Ok(VInt(a))
  {
    hide Run, Generate;
    RanIs(p, env, Plus, a, b);
    RanIs(p, env, Minus, a, b);
    RanIs(p, env, Minus, a + b, b);
    RanIs(p, env, Plus, a - b, b);
  }

  /** Multiplication is repeated addition. */
  lemma {:induction false} MultiplyRuns(p: Prims, env: Env, a: int, b: int)
    ensures Ran(p, env, Multiply, a, 0) == Ok(VInt(0))
    ensures Ints(Ran(p, env, Multiply, a, b))
    ensures Ran(p, env, Multiply, a, b + 1) == Ran(p, env, Plus, Ran(p, env, Multiply, a, b).v.i, a)
  {
    hide Run, Generate;
    RanIs(p, env, Multiply, a, 0);
    RanIs(p, env, Multiply, a, b);
    RanIs(p, env, Multiply, a, b + 1);
    RanIs(p, env, Plus, a * b, a);
    assert a * (b + 1) == a * b + a;
  }

  function Magnitude(a: int): nat {
    if a < 0 then -a else a
  }

  lemma {:induction false} Remainder(n: nat, d: nat)
    requires d > 0
    ensures 0 <= n - d * (n / d) < d && d * (n / d) >= 0
  {
  }

  lemma {:induction false} Signs(x: int, y: int)
    ensures x * -y == -(x * y) && -x * y == -(x * y) && -x * -y == x * y
  {
  }

  /** The multiple of the divisor that truncation leaves. */
  lemma {:induction false} TruncatedProduct(a: int, b: int, m: int)
    requires b != 0 && m == Magnitude(b) * (Magnitude(a) / Magnitude(b))
    ensures b * TruncatedDivide(a, b) == if a >= 0 then m else -m
  {
    var d: int, k: int := Magnitude(b), Magnitude(a) / Magnitude(b);
    Signs(d, k);
    if a >= 0 && b > 0 {
      assert TruncatedDivide(a, b) == k && b == d;
    } else if a >= 0 {
      assert TruncatedDivide(a, b) == -k && b == -d;
    } else if b > 0 {
      assert TruncatedDivide(a, b) == -k && b == d;
    } else {
      assert TruncatedDivide(a, b) == k && b == -d;
    }
  }

  lemma {:induction false} SignOfRest(a: int, d: nat, m: int, product: int)
    requires 0 <= m && 0 <= Magnitude(a) - m < d && product == if a >= 0 then m else -m
    ensures Magnitude(a - product) < d && (a - product == 0 || (a - product > 0 <==> a > 0))
  {
  }

  lemma {:induction false} TruncatedIs(a: int, b: int)
    requires b != 0
    ensures var r := a - b * TruncatedDivide(a, b);
            Magnitude(r) < Magnitude(b) && (r == 0 || (r > 0 <==> a > 0))
  {
    hide TruncatedDivide;
    var m := Magnitude(b) * (Magnitude(a) / Magnitude(b));
    Remainder(Magnitude(a), Magnitude(b));
    TruncatedProduct(a, b, m);
    SignOfRest(a, Magnitude(b), m, b * TruncatedDivide(a, b));
  }

  /**
   * Division and remainder fit together, the remainder is smaller than the divisor and has the
   * sign of the dividend; both panic exactly for the divisor 0.
   */
  lemma {:induction false} DivideRuns(p: Prims, env: Env, a: int, b: int)
    ensures b == 0 <==> Ran(p, env, Divide, a, b) == Panic
    ensures b == 0 <==> Ran(p, env, Modulo, a, b) == Panic
    ensures b != 0 ==>
              && Ints(Ran(p, env, Divide, a, b)) && Ints(Ran(p, env, Modulo, a, b))
              && var q, r := Ran(p, env, Divide, a, b).v.i, Ran(p, env, Modulo, a, b).v.i;
                 && Ints(Ran(p, env, Multiply, q, b))
                 && Ran(p, env, Plus, Ran(p, env, Multiply, q, b).v.i, r) == Ok(VInt(a))
                 && Magnitude(r) < Magnitude(b) && (r == 0 || (r > 0 <==> a > 0))
  {
    hide Run, Generate, TruncatedDivide;
    RanIs(p, env, Divide, a, b);
    RanIs(p, env, Modulo, a, b);
    if b != 0 {
      var q := TruncatedDivide(a, b);
      TruncatedIs(a, b);
      RanIs(p, env, Multiply, q, b);
      RanIs(p, env, Plus, q * b, a - b * q);
      assert q * b == b * q;
    }
  }

  lemma {:induction false} IntegersOnly(op: MathOp, a: int, b: int)
    ensures Computed(op, a, b).Value? ==> Computed(op, a, b).v.VInt?
  {
  }

  /**
   * A compiled operation on any operands, in every environment that binds the argument: it is
   * worth what the code for the two values is worth, and null if an operand is.
   */
  lemma {:induction false} MathIsWorth(p: Prims, s: Schema, left: Expr, op: MathOp, right: Expr, row: seq<Val>, env: Env)
    requires WellTyped(s, Math(left, op, right)) && Sound(s, Math(left, op, right)) && RowTyped(s, row)
    requires Eval(p, s, left, row).Value? && Eval(p, s, right, row).Value?
    requires Arg in env && env[Arg] == ArgOf(s, row)
    ensures var l, r := Eval(p, s, left, row).v, Eval(p, s, right, row).v;
            var nullable := TypeOf(s, left).nullable || TypeOf(s, right).nullable;
            var o := Run(p, Generate(s, Math(left, op, right)), env);
            && (l.VNull? || r.VNull? ==> o == Ok(VNone))
            && (l.VInt? && r.VInt? && Ran(p, env, op, l.i, r.i).Ok? ==>
                  o == Ok(if nullable then VSome(Ran(p, env, op, l.i, r.i).v) else Ran(p, env, op, l.i, r.i).v))
  {
    var e := Math(left, op, right);
    var l, r := Eval(p, s, left, row).v, Eval(p, s, right, row).v;
    hide Run, Generate, Ran, Computes, WellTyped, Sound, ArgOf, RowTyped, Computed;
    if l.VInt? && r.VInt? {
      RanIs(p, env, op, l.i, r.i);
      IntegersOnly(op, l.i, r.i);
    }
    if Eval(p, s, e, row).Value? {
      GenerateRefines(p, s, e, row);
      ComputesAt(p, Generate(s, e), ArgOf(s, row), TypeOf(s, e), Eval(p, s, e, row).v, env);
    }
  }

  // ---------- comparisons ----------

  lemma {:induction false} ComparedIs(p: Prims, env: Env, op: CompareOp, base: Base, v: Val, w: Val)
    requires HasBase(base, v) && HasBase(base, w) && !base.TStruct?
    requires op.And? || op.Or? ==> base.TBool?
    requires op.Lt? || op.LtEq? || op.Gt? || op.GtEq? ==> base.TInt?
    ensures Holds(p, env, op, base, v, w) <==> Compared(op, v, w)
    ensures Fails(p, env, op, base, v, w) <==> !Compared(op, v, w)
  {
    var as_ := if op.IsNotDistinctFrom? then Eq else if op.IsDistinctFrom? then NotEq else op;
    assert Generate([], CompareOf(op, base, v, w)) == Infix(Lit(v), Cmp(as_), Lit(w));
    InfixOfLiterals(p, env, as_, v, w);
  }

  lemma {:induction false} InfixOfLiterals(p: Prims, env: Env, op: CompareOp, v: Val, w: Val)
    requires !IsOption(v) && !IsOption(w)
    requires op.And? || op.Or? ==> v.VBool? && w.VBool?
    requires op.Lt? || op.LtEq? || op.Gt? || op.GtEq? ==> v.VInt? && w.VInt?
    ensures Run(p, Infix(Lit(v), Cmp(op), Lit(w)), env) == Ok(VBool(Compared(op, v, w)))
  {
    assert Run(p, Lit(v), env) == Ok(v) && Run(p, Lit(w), env) == Ok(w);
  }

  /** Equal means the same value, and different its opposite. */
  lemma {:induction false} EqualRuns(p: Prims, env: Env, base: Base, v: Val, w: Val)
    requires HasBase(base, v) && HasBase(base, w) && !base.TStruct?
    ensures Holds(p, env, Eq, base, v, w) <==> v == w
    ensures Holds(p, env, NotEq, base, v, w) <==> Fails(p, env, Eq, base, v, w)
    ensures Holds(p, env, IsNotDistinctFrom, base, v, w) <==> Holds(p, env, Eq, base, v, w)
    ensures Holds(p, env, IsDistinctFrom, base, v, w) <==> Holds(p, env, NotEq, base, v, w)
    ensures Fails(p, env, Eq, base, v, w) <==> !Holds(p, env, Eq, base, v, w)
  {
    hide Holds, Fails;
    ComparedIs(p, env, Eq, base, v, w);
    ComparedIs(p, env, NotEq, base, v, w);
    ComparedIs(p, env, IsNotDistinctFrom, base, v, w);
    ComparedIs(p, env, IsDistinctFrom, base, v, w);
  }

  /** Exactly one of less, equal and greater; less grows with the right side, and starts at the next number. */
  lemma {:induction false} OrderRuns(p: Prims, env: Env, a: int, b: int)
    ensures Holds(p, env, Lt, TInt, VInt(a), VInt(a + 1))
    ensures Holds(p, env, Lt, TInt, VInt(a), VInt(b)) ==> Holds(p, env, Lt, TInt, VInt(a), VInt(b + 1))
    ensures Holds(p, env, Gt, TInt, VInt(a), VInt(b)) <==> Holds(p, env, Lt, TInt, VInt(b), VInt(a))
    ensures Holds(p, env, Lt, TInt, VInt(a), VInt(b)) || Holds(p, env, Eq, TInt, VInt(a), VInt(b))
            || Holds(p, env, Gt, TInt, VInt(a), VInt(b))
    ensures !(Holds(p, env, Lt, TInt, VInt(a), VInt(b)) && Holds(p, env, Eq, TInt, VInt(a), VInt(b)))
    ensures !(Holds(p, env, Gt, TInt, VInt(a), VInt(b)) && Holds(p, env, Eq, TInt, VInt(a), VInt(b)))
    ensures !(Holds(p, env, Lt, TInt, VInt(a), VInt(b)) && Holds(p, env, Gt, TInt, VInt(a), VInt(b)))
    ensures Holds(p, env, LtEq, TInt, VInt(a), VInt(b)) <==> Fails(p, env, Gt, TInt, VInt(a), VInt(b))
    ensures Holds(p, env, GtEq, TInt, VInt(a), VInt(b)) <==> Fails(p, env, Lt, TInt, VInt(a), VInt(b))
  {
    hide Holds, Fails;
    ComparedIs(p, env, Lt, TInt, VInt(a), VInt(a + 1));
    ComparedIs(p, env, Lt, TInt, VInt(a), VInt(b + 1));
    ComparedIs(p, env, Lt, TInt, VInt(a), VInt(b));
    ComparedIs(p, env, Lt, TInt, VInt(b), VInt(a));
    ComparedIs(p, env, Gt, TInt, VInt(a), VInt(b));
    ComparedIs(p, env, Eq, TInt, VInt(a), VInt(b));
    ComparedIs(p, env, LtEq, TInt, VInt(a), VInt(b));
    ComparedIs(p, env, GtEq, TInt, VInt(a), VInt(b));
  }

  /** The truth tables. */
  lemma {:induction false} LogicRuns(p: Prims, env: Env, x: bool, y: bool)
    ensures Holds(p, env, And, TBool, VBool(x), VBool(y)) <==> x && y
    ensures Fails(p, env, And, TBool, VBool(x), VBool(y)) <==> !x || !y
    ensures Holds(p, env, Or, TBool, VBool(x), VBool(y)) <==> x || y
    ensures Fails(p, env, Or, TBool, VBool(x), VBool(y)) <==> !x && !y
  {
    hide Holds, Fails;
    ComparedIs(p, env, And, TBool, VBool(x), VBool(y));
    ComparedIs(p, env, Or, TBool, VBool(x), VBool(y));
  }

  /**
   * A compiled comparison of any operands, in every environment that binds the argument: it
   * says what the code for the two values says, and null if an operand is null.
   */
  lemma {:induction false} CompareIsWorth(p: Prims, s: Schema, left: Expr, op: CompareOp, right: Expr, row: seq<Val>,
                                          env: Env)
    requires WellTyped(s, Compare(left, op, right)) && Sound(s, Compare(left, op, right)) && RowTyped(s, row)
    requires Eval(p, s, left, row).Value? && Eval(p, s, right, row).Value? && !TypeOf(s, left).base.TStruct?
    requires Arg in env && env[Arg] == ArgOf(s, row)
    ensures var l, r, base := Eval(p, s, left, row).v, Eval(p, s, right, row).v, TypeOf(s, left).base;
            var nullable := TypeOf(s, left).nullable || TypeOf(s, right).nullable;
            var o := Run(p, Generate(s, Compare(left, op, right)), env);
            && (l.VNull? || r.VNull? ==> o == Ok(VNone))
            && (!l.VNull? && !r.VNull? ==>
                  var says := VBool(Holds(p, env, op, base, l, r));
                  o == Ok(if nullable then VSome(says) else says))
  {
    var e, base := Compare(left, op, right), TypeOf(s, left).base;
    var l, r := Eval(p, s, left, row).v, Eval(p, s, right, row).v;
    hide Run, Holds, Fails, Computes, Generate, WellTyped, Sound, ArgOf, RowTyped;
    PartsAre(p, s, left, op, right, row);
    if !l.VNull? && !r.VNull? {
      ComparedIs(p, env, op, base, l, r);
    }
    GenerateRefines(p, s, e, row);
    ComputesAt(p, Generate(s, e), ArgOf(s, row), TypeOf(s, e), Eval(p, s, e, row).v, env);
  }

  lemma {:induction false} ComputesAt(p: Prims, c: Code, arg: Val, t: Ty, v: Val, env: Env)
    requires Computes(p, c, arg, t, v) && Arg in env && env[Arg] == arg
    ensures HasType(t, v) && Run(p, c, env) == Ok(Enc(t, v))
    ensures v.VNull? ==> Enc(t, v) == VNone
    ensures (v.VBool? || v.VInt?) ==> Enc(t, v) == if t.nullable then VSome(v) else v
  {
    hide Run;
  }

  /** The operands of a comparison, by their types. */
  lemma {:induction false} PartsAre(p: Prims, s: Schema, left: Expr, op: CompareOp, right: Expr, row: seq<Val>)
    requires WellTyped(s, Compare(left, op, right)) && Sound(s, Compare(left, op, right)) && RowTyped(s, row)
    requires Eval(p, s, left, row).Value? && Eval(p, s, right, row).Value?
    ensures var l, r, base := Eval(p, s, left, row).v, Eval(p, s, right, row).v, TypeOf(s, left).base;
            && (!l.VNull? ==> HasBase(base, l)) && (!r.VNull? ==> HasBase(base, r))
            && (op.And? || op.Or? ==> base.TBool?)
            && (op.Lt? || op.LtEq? || op.Gt? || op.GtEq? ==> base.TInt?)
            && (op.IsDistinctFrom? || op.IsNotDistinctFrom? ==> !l.VNull? && !r.VNull?)
  {
    hide Run, Generate;
    GenerateRefines(p, s, left, row);
    GenerateRefines(p, s, right, row);
  }

  // ---------- casts and calls ----------

  /** A cast applies the cast from the one type to the other, and panics where that does. */
  lemma {:induction false} CastRuns(p: Prims, env: Env, from: Base, to: Base, v: Val, w: Val)
    requires !v.VNull?
    ensures Run(p, CastTo(from, to, Lit(v)), env) == Ok(w) <==> p.cast(from, to, v) == Some(w) && HasBase(to, w)
    ensures Run(p, CastTo(from, to, Lit(v)), env) == Panic <==>
              p.cast(from, to, v).None? || !HasBase(to, p.cast(from, to, v).value)
  {
    assert Run(p, Lit(v), env) == Ok(v);
  }

  /** A call passes the arguments in order, nulls for empty options, and returns the represented result. */
  lemma {:induction false} CallPasses(p: Prims, env: Env, name: string, params: seq<Ty>, ret: Ty, vs: seq<Val>, w: Val)
    requires |vs| == |params| && forall k :: 0 <= k < |vs| ==> Slot(k) in env && Decoded(env[Slot(k)]) == vs[k]
    requires p.udf(name, vs) == Some(w) && HasType(ret, w)
    ensures Run(p, Call(name, params, ret), env) == Ok(Enc(ret, w))
  {
    assert seq(|params|, k requires 0 <= k < |params| && Slot(k) in env => Decoded(env[Slot(k)])) == vs;
  }
}
