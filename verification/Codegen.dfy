// Generated code as a syntax tree with binders, its evaluation, and the generator: for each
// expression and each nullability of its parts, the code that the compiler emits.
module Codegen {
  import opened Messages
  import opened Expressions

  /** The identifiers of generated code: the context's argument and the binders. */
  datatype Name = Arg | LeftVar | RightVar | ValueVar | X | Slot(index: nat)

  datatype Operator = Cmp(cmp: CompareOp) | Arith(math: MathOp)

  datatype Code =
    | Var(name: Name)
    | FieldOf(c: Code, index: nat)                            // c.field.clone()
    | Lit(value: Val)
    | NoneCode
    | SomeCode(c: Code)                                       // Some(c)
    | IsSome(c: Code)
    | IsNone(c: Code)
    | UnwrapOr(c: Code, otherwise: bool)
    | Not(c: Code)
    | Negate(c: Code)                                         // -1 * c
    | Infix(l: Code, operator: Operator, r: Code)             // l op r
    | MapOption(c: Code, x: Name, body: Code)                 // c.map(|x| body)
    | FlattenOption(c: Code)                                  // c.flatten()
    | Let(x: Name, c: Code, body: Code)
    | MatchBoth(x: Name, y: Name, body: Code)                 // match (x, y) { (Some(x), Some(y)) => Some(body), _ => None }
    | MatchEqual(c: Code, x: Name, guard: Code, otherwise_: Code) // match c { Some(x) if guard => None, _ => otherwise }
    | IfElse(c: Code, t: Code, f: Code)
    | OrElse(c: Code, d: Code)                                // c.or_else(|| d)
    | UnwrapOrElse(c: Code, d: Code)                          // c.unwrap_or_else(|| d)
    | CastTo(from: Base, to: Base, c: Code)
    | Call(udf: string, params: seq<Ty>, ret: Ty)             // udfs::name(__0, __1, ...)
    | Try(c: Code)                                            // (c)?
    | Invoke(c: Code)                                         // (|| { c })()

  type Env = map<Name, Val>

  /** Stuck is code that a Rust compiler would have rejected. */
  datatype Outcome = Ok(v: Val) | Panic | Return(v: Val) | Stuck

  /** A closure turns an early return into its value. */
  function Caught(o: Outcome): Outcome {
    match o
    case Return(v) => Ok(v)
    case _ => o
  }

  predicate IsOption(v: Val) {
    v.VNone? || v.VSome?
  }

  /** Operators on two values of the same type. */
  function Apply(operator: Operator, l: Val, r: Val): Outcome {
    if IsOption(l) != IsOption(r) then Stuck
    else
      match operator
      case Cmp(op) =>
        if op.And? || op.Or? then (if l.VBool? && r.VBool? then Ok(VBool(Compared(op, l, r))) else Stuck)
        else if op.Lt? || op.LtEq? || op.Gt? || op.GtEq? then
          (if l.VInt? && r.VInt? then Ok(VBool(Compared(op, l, r))) else Stuck)
        else Ok(VBool(Compared(op, l, r)))
      case Arith(op) =>
        if l.VInt? && r.VInt? then
          match Computed(op, l.i, r.i)
          case Value(v) => Ok(v)
          case Panicked => Panic
        else Stuck
  }

  function Decoded(v: Val): Val {
    match v
    case VNone => VNull
    case VSome(w) => w
    case _ => v
  }

  function RunCall(p: Prims, udf: string, params: seq<Ty>, ret: Ty, env: Env): Outcome {
    if exists k :: 0 <= k < |params| && Slot(k) !in env then Stuck
    else
      var vs := seq(|params|, k requires 0 <= k < |params| && Slot(k) in env => Decoded(env[Slot(k)]));
      match EvalCall(p, udf, ret, vs)
      case Value(w) => if HasType(ret, w) then Ok(Enc(ret, w)) else Panic
      case Panicked => Panic
  }

  function Run(p: Prims, c: Code, env: Env): Outcome {
    match c
    case Var(x) => if x in env then Ok(env[x]) else Stuck
    case FieldOf(d, i) =>
      (match Run(p, d, env)
       case Ok(v) => if v.VStruct? && i < |v.fields| then Ok(v.fields[i]) else Stuck
       case o => o)
    case Lit(v) => Ok(v)
    case NoneCode => Ok(VNone)
    case SomeCode(d) =>
      (match Run(p, d, env)
       case Ok(v) => Ok(VSome(v))
       case o => o)
    case IsSome(d) =>
      (match Run(p, d, env)
       case Ok(v) => if IsOption(v) then Ok(VBool(v.VSome?)) else Stuck
       case o => o)
    case IsNone(d) =>
      (match Run(p, d, env)
       case Ok(v) => if IsOption(v) then Ok(VBool(v.VNone?)) else Stuck
       case o => o)
    case UnwrapOr(d, b) =>
      (match Run(p, d, env)
       case Ok(v) => if v.VSome? then Ok(v.v) else if v.VNone? then Ok(VBool(b)) else Stuck
       case o => o)
    case Not(d) =>
      (match Run(p, d, env)
       case Ok(v) => if v.VBool? then Ok(VBool(!v.b)) else Stuck
       case o => o)
    case Negate(d) =>
      (match Run(p, d, env)
       case Ok(v) => if v.VInt? then Ok(VInt(-1 * v.i)) else Stuck
       case o => o)
    case Infix(l, op, r) =>
      (match Run(p, l, env)
       case Ok(v) =>
         if op == Cmp(And) && v == VBool(false) then Ok(v)
         else if op == Cmp(Or) && v == VBool(true) then Ok(v)
         else
           (match Run(p, r, env)
            case Ok(w) => Apply(op, v, w)
            case o => o)
       case o => o)
    case MapOption(d, x, body) =>
      (match Run(p, d, env)
       case Ok(v) =>
         if v.VNone? then Ok(v)
         else if v.VSome? then
           (match Caught(Run(p, body, env[x := v.v]))
            case Ok(w) => Ok(VSome(w))
            case o => o)
         else Stuck
       case o => o)
    case FlattenOption(d) =>
      (match Run(p, d, env)
       case Ok(v) => if v.VNone? then Ok(v) else if v.VSome? && IsOption(v.v) then Ok(v.v) else Stuck
       case o => o)
    case Let(x, d, body) =>
      (match Run(p, d, env)
       case Ok(v) => Run(p, body, env[x := v])
       case o => o)
    case MatchBoth(x, y, body) =>
      if x !in env || y !in env || !IsOption(env[x]) || !IsOption(env[y]) then Stuck
      else if env[x].VSome? && env[y].VSome? then
        (match Run(p, body, env[x := env[x].v][y := env[y].v])
         case Ok(w) => Ok(VSome(w))
         case o => o)
      else Ok(VNone)
    case MatchEqual(d, x, guard, otherwise_) =>
      (match Run(p, d, env)
       case Ok(v) =>
         if v.VSome? then
           (match Run(p, guard, env[x := v.v])
            case Ok(g) => if g == VBool(true) then Ok(VNone) else if g.VBool? then Run(p, otherwise_, env) else Stuck
            case o => o)
         else if v.VNone? then Run(p, otherwise_, env)
         else Stuck
       case o => o)
    case IfElse(d, t, f) =>
      (match Run(p, d, env)
       case Ok(v) => if v == VBool(true) then Run(p, t, env) else if v.VBool? then Run(p, f, env) else Stuck
       case o => o)
    case OrElse(d, e) =>
      (match Run(p, d, env)
       case Ok(v) => if v.VSome? then Ok(v) else if v.VNone? then Caught(Run(p, e, env)) else Stuck
       case o => o)
    case UnwrapOrElse(d, e) =>
      (match Run(p, d, env)
       case Ok(v) => if v.VSome? then Ok(v.v) else if v.VNone? then Caught(Run(p, e, env)) else Stuck
       case o => o)
    case CastTo(from, to, d) =>
      (match Run(p, d, env)
       case Ok(v) =>
         (match EvalCast(p, from, to, v)
          case Value(w) => Ok(w)
          case Panicked => Panic)
       case o => o)
    case Call(udf, params, ret) => RunCall(p, udf, params, ret, env)
    case Try(d) =>
      (match Run(p, d, env)
       case Ok(v) => if v.VSome? then Ok(v.v) else if v.VNone? then Return(v) else Stuck
       case o => o)
    case Invoke(d) => Caught(Run(p, d, env))
  }

  // ---------- the generator ----------

  function UnaryCode(op: UnaryOp, nullable: bool, c: Code): Code {
    if nullable then
      match op
      case IsNotNull => IsSome(c)
      case IsNull => IsNone(c)
      case IsTrue => UnwrapOr(c, false)
      case IsFalse => Not(UnwrapOr(c, true))
      case IsUnknown => IsNone(c)
      case IsNotTrue => Not(UnwrapOr(c, false))
      case IsNotFalse => UnwrapOr(c, true)
      case IsNotUnknown => IsSome(c)
      case Negative => MapOption(c, X, Negate(Var(X)))
    else
      match op
      case IsNotNull => Lit(VBool(true))
      case IsNull => Lit(VBool(false))
      case IsTrue => c
      case IsFalse => Not(c)
      case IsUnknown => Lit(VBool(false))
      case IsNotTrue => Not(c)
      case IsNotFalse => c
      case IsNotUnknown => Lit(VBool(true))
      case Negative => Negate(c)
  }

  /** Comparisons and arithmetic share one shape. */
  function BinaryCode(op: Operator, leftNullable: bool, rightNullable: bool, l: Code, r: Code): Code {
    if leftNullable && rightNullable then
      Let(LeftVar, l, Let(RightVar, r, MatchBoth(LeftVar, RightVar, Infix(Var(LeftVar), op, Var(RightVar)))))
    else if leftNullable then MapOption(l, LeftVar, Infix(Var(LeftVar), op, r))
    else if rightNullable then MapOption(r, RightVar, Infix(l, op, Var(RightVar)))
    else Infix(l, op, r)
  }

  function CompareCode(op: CompareOp, leftNullable: bool, rightNullable: bool, l: Code, r: Code): Code {
    match op
    case IsNotDistinctFrom => Infix(l, Cmp(Eq), r)
    case IsDistinctFrom => Infix(l, Cmp(NotEq), r)
    case _ => BinaryCode(Cmp(op), leftNullable, rightNullable, l, r)
  }

  function FieldCode(structNullable: bool, fieldNullable: bool, c: Code, i: nat): Code {
    if structNullable then
      var mapped := MapOption(c, Arg, FieldOf(Var(Arg), i));
      if fieldNullable then FlattenOption(mapped) else mapped
    else FieldOf(c, i)
  }

  function CastCode(from: Base, to: Base, nullable: bool, forceNullable: bool, c: Code): Code {
    if nullable then MapOption(c, X, CastTo(from, to, Var(X)))
    else if forceNullable then SomeCode(CastTo(from, to, c))
    else CastTo(from, to, c)
  }

  /** What the loop over the remaining terms makes of the code accumulated so far. */
  function CoalesceRest(result: Code, codes: seq<Code>, nullable: seq<bool>): Code
    requires |codes| == |nullable|
    decreases |codes|
  {
    if codes == [] then result
    else if !nullable[0] then UnwrapOrElse(result, codes[0])
    else CoalesceRest(OrElse(result, codes[0]), codes[1..], nullable[1..])
  }

  function CoalesceCode(codes: seq<Code>, nullable: seq<bool>): Code
    requires |codes| == |nullable|
  {
    if codes == [] then NoneCode
    else if !nullable[0] then codes[0]
    else CoalesceRest(codes[0], codes[1..], nullable[1..])
  }

  /** The loop itself: it returns at the first term that cannot be null. */
  method GenerateCoalesce(codes: seq<Code>, nullable: seq<bool>) returns (result: Code)
    requires codes != [] && |codes| == |nullable|
    ensures result == CoalesceCode(codes, nullable)
  {
    if !nullable[0] {
      return codes[0];
    }
    result := codes[0];
    var k := 1;
    while k < |codes|
      invariant 1 <= k <= |codes|
      invariant CoalesceRest(result, codes[k..], nullable[k..]) == CoalesceCode(codes, nullable)
    {
      assert codes[k..][1..] == codes[k + 1..] && nullable[k..][1..] == nullable[k + 1..];
      if !nullable[k] {
        return UnwrapOrElse(result, codes[k]);
      }
      result := OrElse(result, codes[k]);
      k := k + 1;
    }
  }

  function NullIfCode(leftNullable: bool, rightNullable: bool, l: Code, r: Code): Code {
    var equal := Infix(Var(LeftVar), Cmp(Eq), Var(RightVar));
    Let(LeftVar, l, Let(RightVar, r,
      if leftNullable && rightNullable then IfElse(equal, NoneCode, Var(LeftVar))
      else if leftNullable then MatchEqual(Var(LeftVar), LeftVar, equal, Var(LeftVar))
      else if rightNullable then MatchEqual(Var(RightVar), RightVar, equal, SomeCode(Var(LeftVar)))
      else IfElse(equal, NoneCode, SomeCode(Var(LeftVar)))))
  }

  /** syn_expression_with_nullity; the case it calls unreachable keeps the code as it is. */
  function WithNullity(c: Code, nullable: bool, wanted: bool): Code {
    if !nullable && wanted then SomeCode(c) else c
  }

  function Generate(s: Schema, e: Expr): Code
    decreases e, 1, 0
  {
    match e
    case Column(i) => FieldOf(Var(Arg), i)
    case Literal(_, scalar) => if scalar.VNull? then NoneCode else Lit(scalar)
    case Unary(op, input) => UnaryCode(op, TypeOf(s, input).nullable, Generate(s, input))
    case Compare(left, op, right) =>
      CompareCode(op, TypeOf(s, left).nullable, TypeOf(s, right).nullable, Generate(s, left), Generate(s, right))
    case Math(left, op, right) =>
      BinaryCode(Arith(op), TypeOf(s, left).nullable, TypeOf(s, right).nullable, Generate(s, left), Generate(s, right))
    case StructField(struct, i) =>
      var t := TypeOf(s, struct);
      FieldCode(t.nullable, t.base.TStruct? && i < |t.base.fields| && t.base.fields[i].nullable, Generate(s, struct), i)
    case Cast(input, to, forceNullable) =>
      CastCode(TypeOf(s, input).base, to, TypeOf(s, input).nullable, forceNullable, Generate(s, input))
    case Coalesce(terms) =>
      CoalesceCode(seq(|terms|, k requires 0 <= k < |terms| => Generate(s, terms[k])),
                   seq(|terms|, k requires 0 <= k < |terms| => TypeOf(s, terms[k]).nullable))
    case NullIf(left, right) =>
      NullIfCode(TypeOf(s, left).nullable, TypeOf(s, right).nullable, Generate(s, left), Generate(s, right))
    case CaseMatch(value, arms, default) =>
      var nullable := TypeOf(s, e).nullable;
      Let(ValueVar, WithNullity(Generate(s, value), TypeOf(s, value).nullable, true),
          IfElse(IsNone(Var(ValueVar)),
                 DefaultCode(s, e, default, nullable),
                 ArmsCode(s, e, true, arms, default, nullable)))
    case CaseWhen(arms, default) => ArmsCode(s, e, false, arms, default, TypeOf(s, e).nullable)
    case Udf(name, params, args, ret) =>
      Invoke(UdfCode(s, e, name, params, args, ret, TypeOf(s, e).nullable && !ret.nullable, 0))
  }

  function DefaultCode(s: Schema, e: Expr, default: Option<Expr>, nullable: bool): Code
    requires default.Some? ==> default.value < e
    decreases e, 0, 0
  {
    match default
    case Some(d) => WithNullity(Generate(s, d), TypeOf(s, d).nullable, nullable)
    case None => NoneCode
  }

  /** if #when == value { #then } else ..., or if #when.unwrap_or(false) { #then } else ... */
  function ArmsCode(s: Schema, e: Expr, matching: bool, arms: seq<Arm>, default: Option<Expr>, nullable: bool): Code
    requires forall k :: 0 <= k < |arms| ==> arms[k].when < e && arms[k].result < e
    requires default.Some? ==> default.value < e
    decreases e, 0, |arms| + 1
  {
    if arms == [] then DefaultCode(s, e, default, nullable)
    else
      var when := WithNullity(Generate(s, arms[0].when), TypeOf(s, arms[0].when).nullable, true);
      IfElse(if matching then Infix(when, Cmp(Eq), Var(ValueVar)) else UnwrapOr(when, false),
             WithNullity(Generate(s, arms[0].result), TypeOf(s, arms[0].result).nullable, nullable),
             ArmsCode(s, e, matching, arms[1..], default, nullable))
  }

  /** let __k = ...; for each argument, then the call. */
  function UdfCode(s: Schema, e: Expr, name: string, params: seq<Ty>, args: seq<Expr>, ret: Ty, wrap: bool, k: nat): Code
    requires forall j :: 0 <= j < |args| ==> args[j] < e
    decreases e, 0, if k <= |args| then |args| - k + 1 else 0
  {
    if k >= |args| || k >= |params| then
      (if wrap then SomeCode(Call(name, params, ret)) else Call(name, params, ret))
    else
      var c, nullable := Generate(s, args[k]), TypeOf(s, args[k]).nullable;
      Let(Slot(k),
          if params[k].nullable == nullable then c else if params[k].nullable then SomeCode(c) else Try(c),
          UdfCode(s, e, name, params, args, ret, wrap, k + 1))
  }
}
