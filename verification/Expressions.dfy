// The SQL expression compiler. An expression is compiled to code that differs for each
// combination of nullability; nulls become options. The reference is one evaluator that
// knows nothing of nullability and treats null strictly.
module Expressions {
  import opened Messages

  // ---------- types and values ----------

  datatype Base = TBool | TInt | TStr | TStruct(fields: seq<Ty>)

  /** A type: is_optional() is the second component. */
  datatype Ty = Ty(base: Base, nullable: bool)

  /** SQL values use VNull; values of generated code use VNone and VSome instead. */
  datatype Val =
    | VNull
    | VBool(b: bool)
    | VInt(i: int)
    | VStr(s: string)
    | VStruct(fields: seq<Val>)
    | VNone
    | VSome(v: Val)

  predicate HasBase(b: Base, v: Val) {
    match b
    case TBool => v.VBool?
    case TInt => v.VInt?
    case TStr => v.VStr?
    case TStruct(fields) =>
      v.VStruct? && |v.fields| == |fields| && forall i :: 0 <= i < |fields| ==> HasType(fields[i], v.fields[i])
  }

  predicate HasType(t: Ty, v: Val) {
    if v.VNull? then t.nullable else HasBase(t.base, v)
  }

  /** How a non-null SQL value is represented in generated code. */
  function EncBase(b: Base, v: Val): Val
    requires HasBase(b, v)
  {
    match b
    case TStruct(fields) => VStruct(seq(|fields|, i requires 0 <= i < |fields| => Enc(fields[i], v.fields[i])))
    case _ => v
  }

  /** A nullable value is an option, any other is represented directly. */
  function Enc(t: Ty, v: Val): (r: Val)
    requires HasType(t, v)
    ensures t.nullable <==> r.VNone? || r.VSome?
  {
    if v.VNull? then VNone
    else if t.nullable then VSome(EncBase(t.base, v))
    else EncBase(t.base, v)
  }

  // ---------- expressions ----------

  datatype UnaryOp = IsNotNull | IsNull | IsTrue | IsFalse | IsUnknown | IsNotTrue | IsNotFalse | IsNotUnknown | Negative

  datatype CompareOp = Eq | NotEq | Lt | LtEq | Gt | GtEq | IsDistinctFrom | IsNotDistinctFrom | And | Or

  datatype MathOp = Plus | Minus | Multiply | Divide | Modulo

  datatype Arm = Arm(when: Expr, result: Expr)

  datatype Expr =
    | Column(index: nat)
    | Literal(base: Base, scalar: Val)
    | Unary(op: UnaryOp, input: Expr)
    | Compare(left: Expr, cmp: CompareOp, right: Expr)
    | Math(left: Expr, math: MathOp, right: Expr)
    | StructField(struct: Expr, index: nat)
    | Cast(input: Expr, to: Base, forceNullable: bool)
    | Coalesce(terms: seq<Expr>)
    | NullIf(left: Expr, right: Expr)
    | CaseMatch(value: Expr, arms: seq<Arm>, default: Option<Expr>)
    | CaseWhen(arms: seq<Arm>, default: Option<Expr>)
    | Udf(name: string, params: seq<Ty>, args: seq<Expr>, ret: Ty)

  /** The columns of the input struct. */
  type Schema = seq<Ty>

  /** expression_type: the type the compiler announces. */
  function TypeOf(s: Schema, e: Expr): Ty {
    match e
    case Column(i) => if i < |s| then s[i] else Ty(TBool, false)
    case Literal(base, value) => Ty(base, value.VNull?)
    case Unary(op, input) => if op.Negative? then TypeOf(s, input) else Ty(TBool, false)
    case Compare(left, _, right) => Ty(TBool, TypeOf(s, left).nullable || TypeOf(s, right).nullable)
    case Math(left, _, right) =>
      Ty(TypeOf(s, left).base, TypeOf(s, left).nullable || TypeOf(s, right).nullable)
    case StructField(struct, i) =>
      var t := TypeOf(s, struct);
      if t.base.TStruct? && i < |t.base.fields| then
        var field := t.base.fields[i];
        if t.nullable then Ty(field.base, true) else field
      else Ty(TBool, false)
    case Cast(input, to, forceNullable) => Ty(to, TypeOf(s, input).nullable || forceNullable)
    case Coalesce(terms) =>
      if terms == [] then Ty(TBool, false)
      else Ty(TypeOf(s, terms[0]).base, forall k :: 0 <= k < |terms| ==> TypeOf(s, terms[k]).nullable)
    case NullIf(left, _) => Ty(TypeOf(s, left).base, true)
    case CaseMatch(_, arms, default) =>
      if arms == [] then Ty(TBool, false)
      else
        Ty(TypeOf(s, arms[0].result).base,
           default.None? || TypeOf(s, default.value).nullable
           || exists k :: 0 <= k < |arms| && TypeOf(s, arms[k].result).nullable)
    case CaseWhen(arms, default) =>
      if arms == [] then Ty(TBool, false)
      else
        Ty(TypeOf(s, arms[0].result).base,
           default.None? || TypeOf(s, default.value).nullable
           || exists k :: 0 <= k < |arms| && TypeOf(s, arms[k].result).nullable)
    case Udf(_, params, args, ret) =>
      Ty(ret.base,
         ret.nullable
         || exists k :: 0 <= k < |args| && k < |params| && !params[k].nullable && TypeOf(s, args[k]).nullable)
  }

  /** What the planner guarantees of the expressions it hands to the compiler. */
  predicate WellTyped(s: Schema, e: Expr) {
    match e
    case Column(i) => i < |s|
    case Literal(base, value) => !base.TStruct? && (value.VNull? || HasBase(base, value))
    case Unary(op, input) =>
      && WellTyped(s, input)
      && (match op
          case IsNull => true
          case IsNotNull => true
          case Negative => TypeOf(s, input).base.TInt?
          case _ => TypeOf(s, input).base.TBool?)
    case Compare(left, op, right) =>
      && WellTyped(s, left) && WellTyped(s, right)
      && TypeOf(s, left).base == TypeOf(s, right).base
      && (op.And? || op.Or? ==> TypeOf(s, left).base.TBool?)
      && (op.Lt? || op.LtEq? || op.Gt? || op.GtEq? ==> TypeOf(s, left).base.TInt?)
    case Math(left, _, right) =>
      WellTyped(s, left) && WellTyped(s, right) && TypeOf(s, left).base.TInt? && TypeOf(s, right).base.TInt?
    case StructField(struct, i) =>
      WellTyped(s, struct) && TypeOf(s, struct).base.TStruct? && i < |TypeOf(s, struct).base.fields|
    case Cast(input, to, _) => WellTyped(s, input) && !TypeOf(s, input).base.TStruct? && !to.TStruct?
    case Coalesce(terms) =>
      && terms != []
      && forall k :: 0 <= k < |terms| ==> WellTyped(s, terms[k]) && TypeOf(s, terms[k]).base == TypeOf(s, terms[0]).base
    case NullIf(left, right) =>
      WellTyped(s, left) && WellTyped(s, right) && TypeOf(s, left).base == TypeOf(s, right).base
    case CaseMatch(value, arms, default) =>
      && WellTyped(s, value) && arms != []
      && (forall k :: 0 <= k < |arms| ==>
            && WellTyped(s, arms[k].when) && WellTyped(s, arms[k].result)
            && TypeOf(s, arms[k].when).base == TypeOf(s, value).base
            && TypeOf(s, arms[k].result).base == TypeOf(s, arms[0].result).base)
      && (default.Some? ==> WellTyped(s, default.value) && TypeOf(s, default.value).base == TypeOf(s, arms[0].result).base)
    case CaseWhen(arms, default) =>
      && arms != []
      && (forall k :: 0 <= k < |arms| ==>
            && WellTyped(s, arms[k].when) && WellTyped(s, arms[k].result)
            && TypeOf(s, arms[k].when).base.TBool?
            && TypeOf(s, arms[k].result).base == TypeOf(s, arms[0].result).base)
      && (default.Some? ==> WellTyped(s, default.value) && TypeOf(s, default.value).base == TypeOf(s, arms[0].result).base)
    case Udf(_, params, args, ret) =>
      && |params| == |args| && !ret.base.TStruct?
      && forall k :: 0 <= k < |args| ==>
           WellTyped(s, args[k]) && TypeOf(s, args[k]).base == params[k].base && !params[k].base.TStruct?
  }

  // ---------- the reference evaluator ----------

  /** Bodies that are not modelled: casts and user-defined functions. None is a panic. */
  datatype Prims = Prims(cast: (Base, Base, Val) -> Option<Val>, udf: (string, seq<Val>) -> Option<Val>)

  datatype Result = Value(v: Val) | Panicked

  /** Null tests, truth tests and negation. Operands of other types do not occur. */
  function EvalUnary(op: UnaryOp, v: Val): Val {
    match op
    case IsNotNull => VBool(v != VNull)
    case IsNull => VBool(v == VNull)
    case IsTrue => VBool(v == VBool(true))
    case IsFalse => VBool(v == VBool(false))
    case IsUnknown => VBool(v == VNull)
    case IsNotTrue => VBool(v != VBool(true))
    case IsNotFalse => VBool(v != VBool(false))
    case IsNotUnknown => VBool(v != VNull)
    case Negative => if v.VInt? then VInt(-v.i) else VNull
  }

  /** Comparison of non-null values. */
  function Compared(op: CompareOp, l: Val, r: Val): bool {
    match op
    case Eq => l == r
    case NotEq => l != r
    case Lt => l.VInt? && r.VInt? && l.i < r.i
    case LtEq => l.VInt? && r.VInt? && l.i <= r.i
    case Gt => l.VInt? && r.VInt? && l.i > r.i
    case GtEq => l.VInt? && r.VInt? && l.i >= r.i
    case IsDistinctFrom => l != r
    case IsNotDistinctFrom => l == r
    case And => l == VBool(true) && r == VBool(true)
    case Or => l == VBool(true) || r == VBool(true)
  }

  /** Null in, null out, except for the two operators that compare nulls. */
  function EvalCompare(op: CompareOp, l: Val, r: Val): Val {
    if op.IsDistinctFrom? || op.IsNotDistinctFrom? then VBool(Compared(op, l, r))
    else if l.VNull? || r.VNull? then VNull
    else VBool(Compared(op, l, r))
  }

  /** Integer division truncates toward zero. */
  function TruncatedDivide(a: int, b: int): int
    requires b != 0
  {
    if a >= 0 then (if b > 0 then a / b else -(a / -b))
    else (if b > 0 then -(-a / b) else -a / -b)
  }

  function Computed(op: MathOp, a: int, b: int): Result {
    match op
    case Plus => Value(VInt(a + b))
    case Minus => Value(VInt(a - b))
    case Multiply => Value(VInt(a * b))
    case Divide => if b == 0 then Panicked else Value(VInt(TruncatedDivide(a, b)))
    case Modulo => if b == 0 then Panicked else Value(VInt(a - b * TruncatedDivide(a, b)))
  }

  function EvalMath(op: MathOp, l: Val, r: Val): Result {
    if l.VInt? && r.VInt? then Computed(op, l.i, r.i) else Value(VNull)
  }

  function EvalCast(p: Prims, from: Base, to: Base, v: Val): Result {
    if v.VNull? then Value(VNull)
    else
      match p.cast(from, to, v)
      case Some(w) => if HasBase(to, w) then Value(w) else Panicked
      case None => Panicked
  }

  /** A function that is declared to return type ret can return nothing else. */
  function EvalCall(p: Prims, name: string, ret: Ty, vs: seq<Val>): Result {
    match p.udf(name, vs)
    case Some(w) => if HasType(ret, w) then Value(w) else Panicked
    case None => Panicked
  }

  /** The value of e on a row. Both operands of an operator are evaluated. */
  function Eval(p: Prims, s: Schema, e: Expr, row: seq<Val>): Result
    decreases e, 1, 0
  {
    match e
    case Column(i) => if i < |row| then Value(row[i]) else Panicked
    case Literal(_, value) => Value(value)
    case Unary(op, input) =>
      (match Eval(p, s, input, row)
       case Value(v) => Value(EvalUnary(op, v))
       case Panicked => Panicked)
    case Compare(left, op, right) =>
      (match (Eval(p, s, left, row), Eval(p, s, right, row))
       case (Value(l), Value(r)) => Value(EvalCompare(op, l, r))
       case _ => Panicked)
    case Math(left, op, right) =>
      (match (Eval(p, s, left, row), Eval(p, s, right, row))
       case (Value(l), Value(r)) => EvalMath(op, l, r)
       case _ => Panicked)
    case StructField(struct, i) =>
      (match Eval(p, s, struct, row)
       case Value(v) => Value(if v.VStruct? && i < |v.fields| then v.fields[i] else VNull)
       case Panicked => Panicked)
    case Cast(input, to, _) =>
      (match Eval(p, s, input, row)
       case Value(v) => EvalCast(p, TypeOf(s, input).base, to, v)
       case Panicked => Panicked)
    case Coalesce(terms) => EvalFirst(p, s, e, terms, row)
    case NullIf(left, right) =>
      (match (Eval(p, s, left, row), Eval(p, s, right, row))
       case (Value(l), Value(r)) => Value(if l == r then VNull else l)
       case _ => Panicked)
    case CaseMatch(value, arms, default) =>
      (match Eval(p, s, value, row)
       case Value(v) =>
         if v.VNull? then EvalDefault(p, s, e, default, row)
         else EvalArms(p, s, e, Some(v), arms, default, row)
       case Panicked => Panicked)
    case CaseWhen(arms, default) => EvalArms(p, s, e, None, arms, default, row)
    case Udf(name, params, args, ret) => EvalUdf(p, s, e, name, params, args, ret, [], row)
  }

  /** The first term that is not null; later terms are not evaluated. */
  function EvalFirst(p: Prims, s: Schema, e: Expr, terms: seq<Expr>, row: seq<Val>): Result
    requires forall k :: 0 <= k < |terms| ==> terms[k] < e
    decreases e, 0, |terms|
  {
    if terms == [] then Value(VNull)
    else
      match Eval(p, s, terms[0], row)
      case Value(v) => if v.VNull? then EvalFirst(p, s, e, terms[1..], row) else Value(v)
      case Panicked => Panicked
  }

  function EvalDefault(p: Prims, s: Schema, e: Expr, default: Option<Expr>, row: seq<Val>): Result
    requires default.Some? ==> default.value < e
    decreases e, 0, 0
  {
    match default
    case Some(d) => Eval(p, s, d, row)
    case None => Value(VNull)
  }

  /** The first arm that is true, or that equals the value being matched. */
  function EvalArms(p: Prims, s: Schema, e: Expr, matched: Option<Val>, arms: seq<Arm>, default: Option<Expr>,
                    row: seq<Val>): Result
    requires forall k :: 0 <= k < |arms| ==> arms[k].when < e && arms[k].result < e
    requires default.Some? ==> default.value < e
    decreases e, 0, |arms| + 1
  {
    if arms == [] then EvalDefault(p, s, e, default, row)
    else
      match Eval(p, s, arms[0].when, row)
      case Value(w) =>
        if w == (if matched.Some? then matched.value else VBool(true)) then Eval(p, s, arms[0].result, row)
        else EvalArms(p, s, e, matched, arms[1..], default, row)
      case Panicked => Panicked
  }

  /** A null for a parameter that takes none makes the result null without a call. */
  function EvalUdf(p: Prims, s: Schema, e: Expr, name: string, params: seq<Ty>, args: seq<Expr>, ret: Ty,
                   done: seq<Val>, row: seq<Val>): Result
    requires forall k :: 0 <= k < |args| ==> args[k] < e
    decreases e, 0, if |done| <= |args| then |args| - |done| + 1 else 0
  {
    if |done| >= |args| then EvalCall(p, name, ret, done)
    else
      match Eval(p, s, args[|done|], row)
      case Value(v) =>
        if v.VNull? && |done| < |params| && !params[|done|].nullable then Value(VNull)
        else EvalUdf(p, s, e, name, params, args, ret, done + [v], row)
      case Panicked => Panicked
  }
}
