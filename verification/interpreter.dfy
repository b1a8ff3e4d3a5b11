/** The reference interpreter over literals, binary operators and `if`
    expressions (src/compiler/interpreter.py), with Python's value rules:
    a value is an int, a bool or `None`; `bool` is a subclass of `int`, so
    booleans take part in `+ - * <` as 0 and 1; `None` in arithmetic or a
    comparison is a `TypeError`; an `if` condition is tested for truthiness. */
module Interpreter {

  import opened Wrappers
  import opened Types
  import opened Ast
  import opened TypeChecker

  datatype Value = IntV(i: int) | BoolV(b: bool) | NoneV

  datatype RuntimeError =
    | OperandTypeError(op: string)
    | DivisionByZero
    | FloatDivision
    | UnsupportedOperator(op: string)
    | UnsupportedExpression

  /** The integer a value stands for in arithmetic; `None` stands for none. */
  function AsNumber(v: Value): (r: Option<int>)
    ensures r.None? <==> v.NoneV?
    ensures v.IntV? ==> r == Some(v.i)
    ensures v.BoolV? ==> r == Some(if v.b then 1 else 0)
  {
    match v
    case IntV(i) => Some(i)
    case BoolV(b) => Some(if b then 1 else 0)
    case NoneV => None
  }

  /** The value a literal node stores. */
  function ValueOf(v: LiteralValue): (r: Value)
    ensures v.IntLit? <==> r.IntV?
    ensures v.BoolLit? <==> r.BoolV?
    ensures v.IntLit? ==> r.i == v.n
    ensures v.BoolLit? ==> r.b == v.b
  {
    match v
    case IntLit(n) => IntV(n)
    case BoolLit(b) => BoolV(b)
    case NoneLit => NoneV
  }

  /** Python truthiness: non-zero ints, `True`; not `None`. */
  predicate Truthy(v: Value) {
    match v
    case IntV(i) => i != 0
    case BoolV(b) => b
    case NoneV => false
  }

  /** One binary operator applied to two already evaluated operands. */
  function Apply(op: string, a: Value, b: Value): (r: Result<Value, RuntimeError>)
    ensures r.Ok? <==> (op == "+" || op == "-" || op == "*" || op == "<") && !a.NoneV? && !b.NoneV?
    ensures r.Ok? ==> (op == "<" <==> r.value.BoolV?) && !r.value.NoneV?
    ensures AsNumber(a).Some? && AsNumber(b).Some? ==>
      var x, y := AsNumber(a).value, AsNumber(b).value;
      (op == "+" ==> r == Ok(IntV(x + y))) &&
      (op == "-" ==> r == Ok(IntV(x - y))) &&
      (op == "*" ==> r == Ok(IntV(x * y))) &&
      (op == "<" ==> r == Ok(BoolV(x < y))) &&
      (op == "/" ==> r == Err(if y == 0 then DivisionByZero else FloatDivision))
    ensures (a.NoneV? || b.NoneV?) && op in {"+", "-", "*", "/", "<"} ==> r == Err(OperandTypeError(op))
    ensures op !in {"+", "-", "*", "/", "<"} ==> r == Err(UnsupportedOperator(op))
  {
    if op == "+" || op == "-" || op == "*" || op == "/" || op == "<" then
      match (AsNumber(a), AsNumber(b))
      case (Some(x), Some(y)) =>
        if op == "+" then Ok(IntV(x + y))
        else if op == "-" then Ok(IntV(x - y))
        else if op == "*" then Ok(IntV(x * y))
        else if op == "<" then Ok(BoolV(x < y))
        else if y == 0 then Err(DivisionByZero)
        else Err(FloatDivision)
      case _ => Err(OperandTypeError(op))
    else
      Err(UnsupportedOperator(op))
  }

  /** Evaluates a tree: both operands before the operator, and of an `if`
      only the branch the condition selects. */
  function Interpret(e: Expr): (r: Result<Value, RuntimeError>)
    ensures e.Literal? ==> r == Ok(ValueOf(e.value))
    ensures e.BinaryOp? && r.Ok? ==> e.op in {"+", "-", "*", "<"}
    ensures !(e.Literal? || e.BinaryOp? || e.IfExpression?) ==> r == Err(UnsupportedExpression)
  {
    match e
    case Literal(v) => Ok(ValueOf(v))
    case BinaryOp(left, op, right) =>
      var a :- Interpret(left);
      var b :- Interpret(right);
      Apply(op, a, b)
    case IfExpression(cond, thenClause, elseClause) =>
      var c :- Interpret(cond);
      if Truthy(c) then
        Interpret(thenClause)
      else if elseClause.Some? then
        Interpret(elseClause.value)
      else
        Ok(NoneV)
    case _ => Err(UnsupportedExpression)
  }

  /** A binary node evaluates its left operand, then its right operand, then
      applies the operator to the two values; the first failure is the result. */
  lemma BinaryEvaluation(l: Expr, op: string, rt: Expr)
    ensures Interpret(l).Err? ==> Interpret(BinaryOp(l, op, rt)) == Err(Interpret(l).error)
    ensures Interpret(l).Ok? && Interpret(rt).Err? ==> Interpret(BinaryOp(l, op, rt)) == Err(Interpret(rt).error)
    ensures Interpret(l).Ok? && Interpret(rt).Ok? ==>
      Interpret(BinaryOp(l, op, rt)) == Apply(op, Interpret(l).value, Interpret(rt).value)
  {
  }

  /** On integer operands `+ - * <` are integer addition, subtraction,
      multiplication and comparison. */
  lemma IntegerArithmetic(l: Expr, op: string, rt: Expr, x: int, y: int)
    requires Interpret(l) == Ok(IntV(x)) && Interpret(rt) == Ok(IntV(y))
    ensures op == "+" ==> Interpret(BinaryOp(l, op, rt)) == Ok(IntV(x + y))
    ensures op == "-" ==> Interpret(BinaryOp(l, op, rt)) == Ok(IntV(x - y))
    ensures op == "*" ==> Interpret(BinaryOp(l, op, rt)) == Ok(IntV(x * y))
    ensures op == "<" ==> Interpret(BinaryOp(l, op, rt)) == Ok(BoolV(x < y))
  {
    BinaryEvaluation(l, op, rt);
  }

  /** The taken branch alone decides the value of an `if`: the other branch is
      never evaluated, so it may even fail. */
  lemma OnlyTakenBranchEvaluated(c: Expr, t: Expr, el: Option<Expr>, cv: Value)
    requires Interpret(c) == Ok(cv)
    ensures Truthy(cv) ==> Interpret(IfExpression(c, t, el)) == Interpret(t)
    ensures !Truthy(cv) && el.Some? ==> Interpret(IfExpression(c, t, el)) == Interpret(el.value)
    ensures !Truthy(cv) && el.None? ==> Interpret(IfExpression(c, t, el)) == Ok(NoneV)
  {
  }

  // ---------------------------------------------------------------------------
  // Agreement with the type checker

  /** No `/` anywhere in the tree: Python's `/` yields a float, which is outside the model. */
  predicate DivisionFree(e: Expr) {
    match e
    case BinaryOp(l, op, r) => op != "/" && DivisionFree(l) && DivisionFree(r)
    case IfExpression(c, t, el) => DivisionFree(c) && DivisionFree(t) && (el.Some? ==> DivisionFree(el.value))
    case _ => true
  }

  /** A value of type `t`: ints for `Int`, bools for `Bool`; anything may be a
      `Unit` value, because an `if` without else yields its then-value when
      the condition holds. */
  predicate Fits(v: Value, t: Type) {
    (t == Int ==> v.IntV?) && (t == Bool ==> v.BoolV?)
  }

  /** A tree the checker accepts evaluates without error to a value of its type. */
  lemma {:induction false} Soundness(e: Expr, t: Type)
    requires Typecheck(e) == Ok(t)
    requires DivisionFree(e)
    ensures Interpret(e).Ok? && Fits(Interpret(e).value, t)
  {
    match e
    case Literal(v) =>
    case BinaryOp(l, op, r) =>
      Soundness(l, Int);
      Soundness(r, Int);
    case IfExpression(c, th, el) =>
      Soundness(c, Bool);
      var t2 := Typecheck(th).value;
      Soundness(th, t2);
      if el.Some? {
        Soundness(el.value, t2);
      }
  }

  /** The source's checker types the literal `True` as `Int`, but it evaluates
      to a bool, and so `if True then 42 else 43`, which the compiler's tests
      expect to compile, is rejected. The corrected checker agrees with the
      interpreter on both. */
  lemma AsWrittenCheckerIsUnsound()
    ensures TypecheckAsWritten(Literal(BoolLit(true))) == Ok(Int)
    ensures Interpret(Literal(BoolLit(true))) == Ok(BoolV(true)) && !Fits(BoolV(true), Int)
    ensures TypecheckAsWritten(IfExpression(Literal(BoolLit(true)), Lit(42), Some(Lit(43)))).Err?
    ensures Typecheck(Literal(BoolLit(true))) == Ok(Bool) && Fits(BoolV(true), Bool)
    ensures Typecheck(IfExpression(Literal(BoolLit(true)), Lit(42), Some(Lit(43)))) == Ok(Int)
  {
  }

  /** Results fixed by tests/interpreter_test.py. */
  lemma InterpreterExamples()
    ensures Interpret(BinaryOp(Lit(1), "+", Lit(2))) == Ok(IntV(3))
    ensures Interpret(BinaryOp(Lit(1), "+", BinaryOp(Lit(2), "*", Lit(3)))) == Ok(IntV(7))
    ensures Interpret(BinaryOp(BinaryOp(Lit(1), "+", Lit(2)), "*", Lit(3))) == Ok(IntV(9))
    ensures Interpret(IfExpression(BinaryOp(Lit(1), "<", Lit(2)), Lit(3), Some(Lit(4)))) == Ok(IntV(3))
    ensures Interpret(BinaryOp(Lit(10), "+", IfExpression(BinaryOp(Lit(2), "<", Lit(1)), Lit(3), Some(Lit(4))))) == Ok(IntV(14))
    ensures Interpret(IfExpression(BinaryOp(Lit(2), "<", Lit(1)), Lit(3), None)) == Ok(NoneV)
  {
  }
}
