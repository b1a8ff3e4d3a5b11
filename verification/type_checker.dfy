/** Structural type checking of literals, binary operators and `if`
    expressions (src/compiler/type_checker.py).

    The checker is written once, over a flag saying whether a boolean literal
    counts as an integer. In Python `bool` is a subclass of `int`, so the
    source's `isinstance(value, int)` test accepts `True` and types it `Int`
    (`TypecheckAsWritten`). The rest of the model uses `Typecheck`, which
    gives boolean literals the type `Bool`; see `Interpreter.AsWrittenCheckerIsUnsound`. */
module TypeChecker {

  import opened Wrappers
  import opened Types
  import opened Ast

  datatype TypeError =
    | UnknownLiteral(value: LiteralValue)
    | OperandsNotInt(op: string, left: Type, right: Type)
    | UnknownOperator(op: string)
    | ConditionNotBool(found: Type)
    | BranchMismatch(thenType: Type, elseType: Type)
    | UnsupportedNode

  /** The operators typed `(Int, Int) -> Int`. */
  predicate IsArithmeticOp(op: string) {
    op == "+" || op == "-" || op == "*" || op == "/"
  }

  /** The operators typed `(Int, Int) -> Bool`. */
  predicate IsComparisonOp(op: string) {
    op == "<"
  }

  predicate IsBasic(t: Type) {
    t == Int || t == Bool || t == Unit
  }

  /** The type of a literal value; `None` has no type. */
  function LiteralType(v: LiteralValue, boolsAreInts: bool): (r: Result<Type, TypeError>)
    ensures r.Ok? <==> !v.NoneLit?
    ensures r.Ok? ==> IsBasic(r.value) && r.value != Unit
  {
    match v
    case IntLit(_) => Ok(Int)
    case BoolLit(_) => if boolsAreInts then Ok(Int) else Ok(Bool)
    case NoneLit => Err(UnknownLiteral(v))
  }

  /** The checker, with operands checked left to right before the operator. */
  function Check(e: Expr, boolsAreInts: bool): (r: Result<Type, TypeError>)
    ensures r.Ok? ==> IsBasic(r.value)
    ensures r.Ok? ==> e.Literal? || e.BinaryOp? || e.IfExpression?
  {
    match e
    case Literal(v) => LiteralType(v, boolsAreInts)
    case BinaryOp(left, op, right) =>
      var t1 :- Check(left, boolsAreInts);
      var t2 :- Check(right, boolsAreInts);
      if IsArithmeticOp(op) then
        if t1 != Int || t2 != Int then Err(OperandsNotInt(op, t1, t2)) else Ok(Int)
      else if IsComparisonOp(op) then
        if t1 != Int || t2 != Int then Err(OperandsNotInt(op, t1, t2)) else Ok(Bool)
      else
        Err(UnknownOperator(op))
    case IfExpression(cond, thenClause, elseClause) =>
      var t1 :- Check(cond, boolsAreInts);
      if t1 != Bool then
        Err(ConditionNotBool(t1))
      else
        var t2 :- Check(thenClause, boolsAreInts);
        (match elseClause
         case None => Ok(Unit)
         case Some(el) =>
           var t3 :- Check(el, boolsAreInts);
           if t2 != t3 then Err(BranchMismatch(t2, t3)) else Ok(t2))
    case _ => Err(UnsupportedNode)
  }

  /** The checker with boolean literals typed `Bool`, used by the rest of the model. */
  function Typecheck(e: Expr): (r: Result<Type, TypeError>)
    ensures r.Ok? ==> IsBasic(r.value)
  {
    Check(e, false)
  }

  /** The checker as the source writes it: every boolean literal is an `Int`. */
  function TypecheckAsWritten(e: Expr): (r: Result<Type, TypeError>)
    ensures r.Ok? ==> IsBasic(r.value)
    ensures e.Literal? ==> (r.Ok? <==> !e.value.NoneLit?) && (r.Ok? ==> r.value == Int)
  {
    Check(e, true)
  }

  // ---------------------------------------------------------------------------
  // The typing rules as a relation

  /** `e` can be given type `t` by the rules: integer literals are `Int`,
      boolean literals `Bool`; arithmetic takes two `Int`s to an `Int` and `<`
      two `Int`s to a `Bool`; an `if` needs a `Bool` condition, and is `Unit`
      without an else-branch and the common branch type with one. */
  predicate HasType(e: Expr, t: Type) {
    match e
    case Literal(v) => (v.IntLit? && t == Int) || (v.BoolLit? && t == Bool)
    case BinaryOp(l, op, r) =>
      HasType(l, Int) && HasType(r, Int)
      && ((IsArithmeticOp(op) && t == Int) || (IsComparisonOp(op) && t == Bool))
    case IfExpression(c, th, el) =>
      HasType(c, Bool)
      && (match el
          case None => t == Unit && (HasType(th, Int) || HasType(th, Bool) || HasType(th, Unit))
          case Some(x) => HasType(th, t) && HasType(x, t))
    case _ => false
  }

  /** The checker accepts a tree with type `t` exactly when the rules give it `t`. */
  lemma {:induction false} TypecheckMatchesRules(e: Expr, t: Type)
    ensures Typecheck(e) == Ok(t) <==> HasType(e, t)
  {
    if Typecheck(e) == Ok(t) {
      CheckedHasType(e, t);
    }
    if HasType(e, t) {
      TypedChecks(e, t);
    }
  }

  lemma {:induction false} CheckedHasType(e: Expr, t: Type)
    requires Typecheck(e) == Ok(t)
    ensures HasType(e, t)
  {
    match e
    case Literal(v) =>
    case BinaryOp(l, op, r) =>
      CheckedHasType(l, Int);
      CheckedHasType(r, Int);
    case IfExpression(c, th, el) =>
      CheckedHasType(c, Bool);
      var t2 := Typecheck(th).value;
      CheckedHasType(th, t2);
      if el.Some? {
        CheckedHasType(el.value, t2);
      }
  }

  lemma {:induction false} TypedChecks(e: Expr, t: Type)
    requires HasType(e, t)
    ensures Typecheck(e) == Ok(t)
  {
    match e
    case Literal(v) =>
    case BinaryOp(l, op, r) =>
      TypedChecks(l, Int);
      TypedChecks(r, Int);
    case IfExpression(c, th, el) =>
      TypedChecks(c, Bool);
      match el
      case None =>
        if HasType(th, Int) {
          TypedChecks(th, Int);
        } else if HasType(th, Bool) {
          TypedChecks(th, Bool);
        } else {
          TypedChecks(th, Unit);
        }
      case Some(x) =>
        TypedChecks(th, t);
        TypedChecks(x, t);
  }

  /** A tree has at most one type. */
  lemma {:induction false} TypesAreUnique(e: Expr, t1: Type, t2: Type)
    requires HasType(e, t1) && HasType(e, t2)
    ensures t1 == t2
  {
    TypecheckMatchesRules(e, t1);
    TypecheckMatchesRules(e, t2);
  }

  /** An operator other than `+ - * / <` is never accepted, whatever its operands. */
  lemma UnknownOperatorRejected(l: Expr, op: string, r: Expr, boolsAreInts: bool)
    requires !IsArithmeticOp(op) && !IsComparisonOp(op)
    ensures Check(BinaryOp(l, op, r), boolsAreInts).Err?
  {
  }

  /** `if` without else is `Unit` whatever its then-branch's type, but the
      then-branch must still check. */
  lemma IfWithoutElseIsUnit(c: Expr, th: Expr, boolsAreInts: bool)
    ensures Check(IfExpression(c, th, None), boolsAreInts).Ok?
        <==> Check(c, boolsAreInts) == Ok(Bool) && Check(th, boolsAreInts).Ok?
    ensures Check(IfExpression(c, th, None), boolsAreInts).Ok? ==> Check(IfExpression(c, th, None), boolsAreInts).value == Unit
  {
  }

  /** Trees with no boolean literal are typed alike by both checkers. */
  predicate NoBoolLiterals(e: Expr) {
    match e
    case Literal(v) => !v.BoolLit?
    case BinaryOp(l, _, r) => NoBoolLiterals(l) && NoBoolLiterals(r)
    case IfExpression(c, t, el) => NoBoolLiterals(c) && NoBoolLiterals(t) && (el.Some? ==> NoBoolLiterals(el.value))
    case _ => true
  }

  lemma {:induction false} CheckersAgreeWithoutBoolLiterals(e: Expr)
    requires NoBoolLiterals(e)
    ensures TypecheckAsWritten(e) == Typecheck(e)
  {
    match e
    case Literal(_) =>
    case BinaryOp(l, _, r) =>
      CheckersAgreeWithoutBoolLiterals(l);
      CheckersAgreeWithoutBoolLiterals(r);
    case IfExpression(c, t, el) =>
      CheckersAgreeWithoutBoolLiterals(c);
      CheckersAgreeWithoutBoolLiterals(t);
      if el.Some? {
        CheckersAgreeWithoutBoolLiterals(el.value);
      }
    case _ =>
  }

  /** Outcomes fixed by tests/type_checker_test.py. */
  lemma CheckerExamples()
    ensures Typecheck(BinaryOp(Lit(1), "+", Lit(2))) == Ok(Int)
    ensures Typecheck(BinaryOp(BinaryOp(Lit(1), "+", Lit(2)), "<", Lit(3))) == Ok(Bool)
    ensures Typecheck(BinaryOp(BinaryOp(Lit(1), "<", Lit(2)), "+", Lit(3))).Err?
    ensures Typecheck(IfExpression(BinaryOp(Lit(1), "<", Lit(2)), Lit(3), None)) == Ok(Unit)
    ensures Typecheck(IfExpression(BinaryOp(Lit(1), "<", Lit(2)), Lit(3), Some(Lit(4)))) == Ok(Int)
    ensures Typecheck(IfExpression(Lit(1), Lit(3), Some(BinaryOp(Lit(4), "<", Lit(5))))).Err?
    ensures Typecheck(IfExpression(BinaryOp(Lit(1), "<", Lit(2)), Lit(3), Some(BinaryOp(Lit(4), "<", Lit(5))))).Err?
  {
  }
}
