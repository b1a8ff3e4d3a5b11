/** Translation of a typed expression tree into IR
    (src/compiler/ir_generator.py), for literals, binary operators and `if`
    expressions.

    One translation threads two counters and the table of variable types:
    `new_var` hands out `x1, x2, ...` and records the type, `new_label` hands
    out `L1, L2, ...`. Every node is type checked before it is translated;
    the checker used is `TypeChecker.Typecheck`. The source appends every
    instruction to one shared list in visiting order; here each visit
    returns the instructions it emitted, and the caller concatenates them in
    the same order. */
module IRGenerator {

  import opened Wrappers
  import opened Types
  import opened Ast
  import opened TypeChecker
  import opened IR
  import opened Seqs
  import opened Decimal
  import SymTab

  datatype Counters = Counters(nextVar: nat, nextLabel: nat, varTypes: map<IRVar, Type>)

  /** What visiting one node produced: the variable holding its value, the
      counters afterwards, and the instructions emitted. */
  datatype Emitted = Emitted(result: IRVar, after: Counters, code: seq<Instruction>)

  const UnitVar := IRVar("unit")

  function XVar(n: nat): IRVar {
    IRVar(Numbered("x", n))
  }

  function LabelNo(n: nat): Label {
    Label(Numbered("L", n))
  }

  /** The number `n` of a variable named `x<n>`. */
  function VarNo(v: IRVar): Option<nat> {
    NumberOf("x", v.name)
  }

  /** The number `n` of a label named `L<n>`. */
  function LabelNum(l: Label): Option<nat> {
    NumberOf("L", l.name)
  }

  lemma UnitVarUnnumbered()
    ensures VarNo(UnitVar).None?
  {
    assert UnitVar.name[..1][0] == 'u';
  }

  /** `v` is one of `x<lo>`, ..., `x<hi - 1>`. */
  predicate VarIn(v: IRVar, lo: nat, hi: nat) {
    VarNo(v).Some? && lo <= VarNo(v).value < hi
  }

  predicate LabelIn(l: Label, lo: nat, hi: nat) {
    LabelNum(l).Some? && lo <= LabelNum(l).value < hi
  }

  /** Every typed variable is `unit` or was handed out before `nextVar`. */
  predicate ValidCounters(c: Counters) {
    1 <= c.nextVar
    && forall v :: v in c.varTypes ==> v == UnitVar || VarIn(v, 1, c.nextVar)
  }

  /** The counters and types at the start of a translation. */
  function InitialCounters(): (c: Counters)
    ensures ValidCounters(c)
  {
    Counters(1, 1, map[UnitVar := Unit])
  }

  /** `x<nextVar>`, which no variable in the table has yet, typed `t`. */
  function NewVar(c: Counters, t: Type): (r: (IRVar, Counters))
    ensures ValidCounters(c) ==> r.0 !in c.varTypes && ValidCounters(r.1)
    ensures VarNo(r.0) == Some(c.nextVar)
    ensures r.1.nextVar == c.nextVar + 1 && r.1.nextLabel == c.nextLabel
    ensures r.1.varTypes == c.varTypes[r.0 := t]
  {
    NumberOfNumbered("x", c.nextVar);
    UnitVarUnnumbered();
    var x := XVar(c.nextVar);
    (x, c.(nextVar := c.nextVar + 1, varTypes := c.varTypes[x := t]))
  }

  function NewLabel(c: Counters): (r: (Label, Counters))
    ensures LabelNum(r.0) == Some(c.nextLabel)
    ensures r.1 == c.(nextLabel := c.nextLabel + 1)
  {
    NumberOfNumbered("L", c.nextLabel);
    (LabelNo(c.nextLabel), c.(nextLabel := c.nextLabel + 1))
  }

  /** The else label, allocated only when there is an else-branch. */
  function NewElseLabel(c: Counters, hasElse: bool): (r: (Option<Label>, Counters))
    ensures r.0.Some? <==> hasElse
    ensures r.0.Some? ==> LabelNum(r.0.value) == Some(c.nextLabel)
    ensures r.1 == c.(nextLabel := c.nextLabel + (if hasElse then 1 else 0))
  {
    if hasElse then
      var (l, c') := NewLabel(c);
      (Some(l), c')
    else
      (None, c)
  }

  /** The code of an `if` up to its else-branch: the condition's code, a
      conditional jump, the then-label, the then-branch's code, the copy into
      the shared result and the jump to the end. */
  function IfHead(cv: Emitted, thenLabel: Label, elseTarget: Label, endLabel: Label, tv: Emitted, x: IRVar): seq<Instruction> {
    cv.code
    + [CondJump(cv.result, thenLabel, elseTarget), LabelInsn(thenLabel)]
    + tv.code
    + [Copy(tv.result, x), Jump(endLabel)]
  }

  /** The rest of an `if` with an else-branch: the else-label, the
      else-branch's code, the copy into the shared result and the end label. */
  function ElsePart(elseLabel: Label, ev: Emitted, x: IRVar, endLabel: Label): seq<Instruction> {
    [LabelInsn(elseLabel)] + ev.code + [Copy(ev.result, x), LabelInsn(endLabel)]
  }

  /** The translation of one node: the node is type checked first, and a
      node kind the checker rejects is never translated. */
  function Visit(e: Expr, c: Counters): (r: Result<Emitted, TypeError>)
    ensures r.Ok? ==> Typecheck(e).Ok?
    decreases e, 1
  {
    var t :- Typecheck(e);
    match e
    case Literal(v) =>
      var (x, c1) := NewVar(c, t);
      Ok(Emitted(x, c1, [LoadIntConst(v, x)]))
    case BinaryOp(left, op, right) => VisitBinary(left, op, right, t, c)
    case IfExpression(cond, thenClause, elseClause) => VisitIf(cond, thenClause, elseClause, t, c)
    case _ => Err(UnsupportedNode)
  }

  /** A binary operator node of type `t`: left operand, right operand, then
      a call of the operator into a fresh variable. */
  function VisitBinary(left: Expr, op: string, right: Expr, t: Type, c: Counters): (r: Result<Emitted, TypeError>)
    ensures r.Ok? ==>
      && |r.value.code| > 0
      && var last := r.value.code[|r.value.code| - 1];
      && last.Call? && last.fun == IRVar(op) && |last.args| == 2 && last.dest == r.value.result
      && r.value.result in r.value.after.varTypes && r.value.after.varTypes[r.value.result] == t
    decreases BinaryOp(left, op, right), 0
  {
    var a :- Visit(left, c);
    var b :- Visit(right, a.after);
    var (x, c1) := NewVar(b.after, t);
    Ok(Emitted(x, c1, a.code + b.code + [Call(IRVar(op), [a.result, b.result], x)]))
  }

  /** An `if` node of type `t`: the condition, the labels, the then-branch,
      the shared result variable, then the else-branch when there is one. */
  function VisitIf(cond: Expr, thenClause: Expr, elseClause: Option<Expr>, t: Type, c: Counters): (r: Result<Emitted, TypeError>)
    ensures r.Ok? ==>
      && |r.value.code| >= (if elseClause.Some? then 7 else 5)
      && r.value.code[|r.value.code| - 1].LabelInsn?
    decreases IfExpression(cond, thenClause, elseClause), 0
  {
    var cv :- Visit(cond, c);
    var thenLabel := NewLabel(cv.after);
    var elseLabel := NewElseLabel(thenLabel.1, elseClause.Some?);
    var endLabel := NewLabel(elseLabel.1);
    var tv :- Visit(thenClause, endLabel.1);
    var x := NewVar(tv.after, t);
    var elseTarget := if elseLabel.0.Some? then elseLabel.0.value else endLabel.0;
    var head := IfHead(cv, thenLabel.0, elseTarget, endLabel.0, tv, x.0);
    if elseClause.Some? then
      var ev :- Visit(elseClause.value, x.1);
      var tail := ElsePart(elseLabel.0.value, ev, x.0, endLabel.0);
      IfLayout(cv, thenLabel.0, elseTarget, endLabel.0, tv, x.0, tail);
      Ok(Emitted(x.0, ev.after, head + tail))
    else
      IfLayout(cv, thenLabel.0, elseTarget, endLabel.0, tv, x.0, [LabelInsn(endLabel.0)]);
      Ok(Emitted(x.0, x.1, head + [LabelInsn(endLabel.0)]))
  }

  /** Where the condition's code, the conditional jump, the then-label and the
      last instruction sit in the code of an `if`. */
  lemma IfLayout(cv: Emitted, thenLabel: Label, elseTarget: Label, endLabel: Label, tv: Emitted, x: IRVar, tail: seq<Instruction>)
    requires |tail| > 0
    ensures var code := IfHead(cv, thenLabel, elseTarget, endLabel, tv, x) + tail;
      && |code| > |cv.code| + 1
      && code[..|cv.code|] == cv.code
      && code[|cv.code|] == CondJump(cv.result, thenLabel, elseTarget)
      && code[|cv.code| + 1] == LabelInsn(thenLabel)
      && code[|code| - 1] == tail[|tail| - 1]
  {
  }

  /** The whole translation: the tree's code, then a call printing its value
      when the tree's type is `Int` or `Bool`. */
  function Generate(root: Expr): (r: Result<seq<Instruction>, TypeError>)
    ensures r.Ok? ==> Typecheck(root).Ok?
  {
    var v :- Visit(root, InitialCounters());
    VisitKeepsTypes(root, InitialCounters());
    Ok(v.code + PrintResult(v.result, v.after, v.after.varTypes[v.result]))
  }

  /** The call printing the variable `x` of type `t` into a fresh variable;
      nothing for other types. */
  function PrintResult(x: IRVar, c: Counters, t: Type): (code: seq<Instruction>)
    ensures |code| == (if t == Int || t == Bool then 1 else 0)
  {
    if t == Int then
      [Call(IRVar("print_int"), [x], NewVar(c, Int).0)]
    else if t == Bool then
      [Call(IRVar("print_bool"), [x], NewVar(c, Int).0)]
    else
      []
  }

  // ---------------------------------------------------------------------------
  // Variables and their types

  /** What a visit does to the variable table: the counters only grow, every
      type already recorded stays as it was, and the result is a fresh
      variable whose recorded type is `t`. */
  predicate KeepsTypes(c: Counters, r: Emitted, t: Type) {
    ValidCounters(r.after)
    && c.nextVar < r.after.nextVar && c.nextLabel <= r.after.nextLabel
    && (forall v :: v in c.varTypes ==> v in r.after.varTypes && r.after.varTypes[v] == c.varTypes[v])
    && VarIn(r.result, c.nextVar, r.after.nextVar)
    && r.result !in c.varTypes
    && r.result in r.after.varTypes && r.after.varTypes[r.result] == t
  }

  /** Every translation records the checker's type for its result variable
      and leaves the types recorded before untouched. */
  lemma {:induction false} VisitKeepsTypes(e: Expr, c: Counters)
    requires ValidCounters(c) && Visit(e, c).Ok?
    ensures KeepsTypes(c, Visit(e, c).value, Typecheck(e).value)
    decreases e, 2
  {
    match e
    case Literal(v) =>
    case BinaryOp(left, op, right) =>
      BinaryKeepsTypes(left, op, right, Typecheck(e).value, c);
    case IfExpression(cond, thenClause, elseClause) =>
      IfKeepsTypes(cond, thenClause, elseClause, Typecheck(e).value, c);
  }

  /** The counters a visit leaves behind are valid and have moved forward. */
  lemma VisitAdvances(e: Expr, c: Counters)
    requires ValidCounters(c) && Visit(e, c).Ok?
    ensures ValidCounters(Visit(e, c).value.after)
    ensures c.nextVar < Visit(e, c).value.after.nextVar && c.nextLabel <= Visit(e, c).value.after.nextLabel
  {
    VisitKeepsTypes(e, c);
  }

  /** The counters the then-branch of an `if` is visited with. */
  function IfBranchCounters(c: Counters, hasElse: bool): (r: Counters)
    ensures r.nextVar == c.nextVar && r.varTypes == c.varTypes
    ensures r.nextLabel == c.nextLabel + (if hasElse then 3 else 2)
  {
    c.(nextLabel := c.nextLabel + (if hasElse then 3 else 2))
  }

  /** The pieces of an `if` with else-branch, by name: the translations of
      its three parts and the code laid out around them. */
  lemma IfElseShape(cond: Expr, thenClause: Expr, elseClause: Expr, t: Type, c: Counters) returns (cv: Emitted, tv: Emitted, ev: Emitted)
    requires VisitIf(cond, thenClause, Some(elseClause), t, c).Ok?
    ensures Visit(cond, c) == Ok(cv)
    ensures Visit(thenClause, IfBranchCounters(cv.after, true)) == Ok(tv)
    ensures Visit(elseClause, NewVar(tv.after, t).1) == Ok(ev)
    ensures
      var r := VisitIf(cond, thenClause, Some(elseClause), t, c).value;
      var n := cv.after.nextLabel;
      && r.result == NewVar(tv.after, t).0 && r.after == ev.after
      && r.code == IfHead(cv, LabelNo(n), LabelNo(n + 1), LabelNo(n + 2), tv, r.result)
                   + ElsePart(LabelNo(n + 1), ev, r.result, LabelNo(n + 2))
  {
    cv := Visit(cond, c).value;
    var n := cv.after.nextLabel;
    var thenLabel := NewLabel(cv.after);
    var elseLabel := NewElseLabel(thenLabel.1, true);
    var endLabel := NewLabel(elseLabel.1);
    assert thenLabel.0 == LabelNo(n) && elseLabel.0 == Some(LabelNo(n + 1)) && endLabel.0 == LabelNo(n + 2);
    assert endLabel.1 == IfBranchCounters(cv.after, true);
    tv := Visit(thenClause, endLabel.1).value;
    ev := Visit(elseClause, NewVar(tv.after, t).1).value;
  }

  /** The pieces of an `if` without else-branch, by name: the translations of
      its two parts and the code laid out around them. */
  lemma IfThenShape(cond: Expr, thenClause: Expr, t: Type, c: Counters) returns (cv: Emitted, tv: Emitted)
    requires VisitIf(cond, thenClause, None, t, c).Ok?
    ensures Visit(cond, c) == Ok(cv)
    ensures Visit(thenClause, IfBranchCounters(cv.after, false)) == Ok(tv)
    ensures
      var r := VisitIf(cond, thenClause, None, t, c).value;
      var n := cv.after.nextLabel;
      && r.result == NewVar(tv.after, t).0 && r.after == NewVar(tv.after, t).1
      && r.code == IfHead(cv, LabelNo(n), LabelNo(n + 1), LabelNo(n + 1), tv, r.result) + [LabelInsn(LabelNo(n + 1))]
  {
    cv := Visit(cond, c).value;
    var n := cv.after.nextLabel;
    var thenLabel := NewLabel(cv.after);
    var elseLabel := NewElseLabel(thenLabel.1, false);
    var endLabel := NewLabel(elseLabel.1);
    assert thenLabel.0 == LabelNo(n) && elseLabel.0 == None && endLabel.0 == LabelNo(n + 1);
    assert endLabel.1 == IfBranchCounters(cv.after, false);
    tv := Visit(thenClause, endLabel.1).value;
  }

  lemma {:induction false} BinaryKeepsTypes(left: Expr, op: string, right: Expr, t: Type, c: Counters)
    requires ValidCounters(c) && VisitBinary(left, op, right, t, c).Ok?
    ensures KeepsTypes(c, VisitBinary(left, op, right, t, c).value, t)
    decreases BinaryOp(left, op, right), 1
  {
    var a := Visit(left, c).value;
    VisitKeepsTypes(left, c);
    VisitKeepsTypes(right, a.after);
  }

  lemma {:induction false} IfKeepsTypes(cond: Expr, thenClause: Expr, elseClause: Option<Expr>, t: Type, c: Counters)
    requires ValidCounters(c) && VisitIf(cond, thenClause, elseClause, t, c).Ok?
    ensures KeepsTypes(c, VisitIf(cond, thenClause, elseClause, t, c).value, t)
    decreases IfExpression(cond, thenClause, elseClause), 1
  {
    if elseClause.Some? {
      IfElseKeepsTypes(cond, thenClause, elseClause.value, t, c);
    } else {
      IfThenKeepsTypes(cond, thenClause, t, c);
    }
  }

  lemma {:induction false} IfElseKeepsTypes(cond: Expr, thenClause: Expr, elseClause: Expr, t: Type, c: Counters)
    requires ValidCounters(c) && VisitIf(cond, thenClause, Some(elseClause), t, c).Ok?
    ensures KeepsTypes(c, VisitIf(cond, thenClause, Some(elseClause), t, c).value, t)
    decreases IfExpression(cond, thenClause, Some(elseClause)), 0
  {
    var r := VisitIf(cond, thenClause, Some(elseClause), t, c).value;
    var cv, tv, ev := IfElseShape(cond, thenClause, elseClause, t, c);
    var c3 := IfBranchCounters(cv.after, true);
    var c4 := NewVar(tv.after, t).1;
    VisitKeepsTypes(cond, c);
    VisitKeepsTypes(thenClause, c3);
    IfKeepsTypesStep(c, cv, c3, tv, r, t, Typecheck(cond).value, Typecheck(thenClause).value);
    VisitKeepsTypes(elseClause, c4);
    ElseKeepsTypesStep(c, tv, c4, ev, r, t, Typecheck(elseClause).value);
  }

  lemma {:induction false} IfThenKeepsTypes(cond: Expr, thenClause: Expr, t: Type, c: Counters)
    requires ValidCounters(c) && VisitIf(cond, thenClause, None, t, c).Ok?
    ensures KeepsTypes(c, VisitIf(cond, thenClause, None, t, c).value, t)
    decreases IfExpression(cond, thenClause, None), 0
  {
    var r := VisitIf(cond, thenClause, None, t, c).value;
    var cv, tv := IfThenShape(cond, thenClause, t, c);
    VisitKeepsTypes(cond, c);
    var c3 := IfBranchCounters(cv.after, false);
    VisitKeepsTypes(thenClause, c3);
    IfKeepsTypesStep(c, cv, c3, tv, r, t, Typecheck(cond).value, Typecheck(thenClause).value);
  }

  /** The condition and the then-branch only add variables, and the shared
      result of an `if` is the variable taken after the then-branch. */
  lemma IfKeepsTypesStep(c: Counters, cv: Emitted, c3: Counters, tv: Emitted, r: Emitted, t: Type, condType: Type, thenType: Type)
    requires ValidCounters(c) && KeepsTypes(c, cv, condType)
    requires c3.nextVar == cv.after.nextVar && c3.varTypes == cv.after.varTypes && cv.after.nextLabel <= c3.nextLabel
    requires KeepsTypes(c3, tv, thenType)
    requires r.result == NewVar(tv.after, t).0
    ensures VarIn(r.result, c.nextVar, tv.after.nextVar + 1) && r.result !in c.varTypes
    ensures NewVar(tv.after, t).1.varTypes[r.result] == t
    ensures forall v :: v in c.varTypes ==> v in NewVar(tv.after, t).1.varTypes && NewVar(tv.after, t).1.varTypes[v] == c.varTypes[v]
    ensures r.after == NewVar(tv.after, t).1 ==> KeepsTypes(c, r, t)
  {
  }

  /** The else-branch is visited after the shared result is taken, and keeps
      its type. */
  lemma ElseKeepsTypesStep(c: Counters, tv: Emitted, c4: Counters, ev: Emitted, r: Emitted, t: Type, elseType: Type)
    requires c4 == NewVar(tv.after, t).1 && r.result == NewVar(tv.after, t).0 && r.after == ev.after
    requires VarIn(r.result, c.nextVar, tv.after.nextVar + 1) && r.result !in c.varTypes
    requires c.nextLabel <= tv.after.nextLabel
    requires c4.varTypes[r.result] == t
    requires forall v :: v in c.varTypes ==> v in c4.varTypes && c4.varTypes[v] == c.varTypes[v]
    requires KeepsTypes(c4, ev, elseType)
    ensures KeepsTypes(c, r, t)
  {
  }

  // ---------------------------------------------------------------------------
  // Labels and created variables

  function LabelsOf(insn: Instruction): seq<Label> {
    if insn.LabelInsn? then [insn.here] else []
  }

  /** The variable an instruction computes afresh; a `Copy` only moves a value. */
  function CreatedOf(insn: Instruction): seq<IRVar> {
    match insn
    case LoadIntConst(_, dest) => [dest]
    case LoadBoolConst(_, dest) => [dest]
    case Call(_, _, dest) => [dest]
    case _ => []
  }

  /** The labels placed in the code, in order. */
  function DefinedLabels(code: seq<Instruction>): seq<Label> {
    FlatMap(code, LabelsOf)
  }

  /** The labels jumped to, in order. */
  function JumpTargets(code: seq<Instruction>): seq<Label> {
    FlatMap(code, Targets)
  }

  function Created(code: seq<Instruction>): seq<IRVar> {
    FlatMap(code, CreatedOf)
  }

  ghost predicate LabelsWithin(ls: seq<Label>, lo: nat, hi: nat) {
    Within(ls, LabelNum, lo, hi)
  }

  ghost predicate VarsWithin(vs: seq<IRVar>, lo: nat, hi: nat) {
    Within(vs, VarNo, lo, hi)
  }

  /** The label and variable discipline of a stretch of code: each label
      placed once, each numbered in `[labelLo, labelHi)`, every jump target
      placed; each computed variable computed once, each numbered in
      `[varLo, varHi)`. */
  ghost predicate Disciplined(code: seq<Instruction>, varLo: nat, varHi: nat, labelLo: nat, labelHi: nat) {
    NoDuplicates(DefinedLabels(code))
    && LabelsWithin(DefinedLabels(code), labelLo, labelHi)
    && (forall l :: l in JumpTargets(code) ==> l in DefinedLabels(code))
    && NoDuplicates(Created(code))
    && VarsWithin(Created(code), varLo, varHi)
  }

  lemma BinaryPieces(left: Expr, op: string, right: Expr, t: Type, c: Counters)
    requires VisitBinary(left, op, right, t, c).Ok?
    ensures Visit(left, c).Ok? && Visit(right, Visit(left, c).value.after).Ok?
    ensures
      var a := Visit(left, c).value;
      var b := Visit(right, a.after).value;
      var r := VisitBinary(left, op, right, t, c).value;
      r.after == NewVar(b.after, t).1
      && r.code == a.code + b.code + [Call(IRVar(op), [a.result, b.result], r.result)]
  {
  }

  lemma IfHeadFlat<U>(cv: Emitted, thenLabel: Label, elseTarget: Label, endLabel: Label, tv: Emitted, x: IRVar, f: Instruction -> seq<U>)
    ensures FlatMap(IfHead(cv, thenLabel, elseTarget, endLabel, tv, x), f)
      == FlatMap(cv.code, f) + (f(CondJump(cv.result, thenLabel, elseTarget)) + f(LabelInsn(thenLabel)))
         + FlatMap(tv.code, f) + (f(Copy(tv.result, x)) + f(Jump(endLabel)))
  {
    var p := [CondJump(cv.result, thenLabel, elseTarget), LabelInsn(thenLabel)];
    var q := [Copy(tv.result, x), Jump(endLabel)];
    assert IfHead(cv, thenLabel, elseTarget, endLabel, tv, x) == (cv.code + p + tv.code) + q;
    FlatMapConcat(cv.code + p + tv.code, q, f);
    FlatMapConcat3(cv.code, p, tv.code, f);
    FlatMapPair(p[0], p[1], f);
    FlatMapPair(q[0], q[1], f);
  }

  lemma IfHeadLabels(cv: Emitted, thenLabel: Label, elseTarget: Label, endLabel: Label, tv: Emitted, x: IRVar)
    ensures DefinedLabels(IfHead(cv, thenLabel, elseTarget, endLabel, tv, x)) == DefinedLabels(cv.code) + [thenLabel] + DefinedLabels(tv.code)
  {
    IfHeadFlat(cv, thenLabel, elseTarget, endLabel, tv, x, LabelsOf);
    assert LabelsOf(CondJump(cv.result, thenLabel, elseTarget)) + LabelsOf(LabelInsn(thenLabel)) == [thenLabel];
    assert LabelsOf(Copy(tv.result, x)) + LabelsOf(Jump(endLabel)) == [];
  }

  lemma IfHeadTargets(cv: Emitted, thenLabel: Label, elseTarget: Label, endLabel: Label, tv: Emitted, x: IRVar)
    ensures JumpTargets(IfHead(cv, thenLabel, elseTarget, endLabel, tv, x)) == JumpTargets(cv.code) + [thenLabel, elseTarget] + JumpTargets(tv.code) + [endLabel]
  {
    IfHeadFlat(cv, thenLabel, elseTarget, endLabel, tv, x, Targets);
    assert Targets(CondJump(cv.result, thenLabel, elseTarget)) + Targets(LabelInsn(thenLabel)) == [thenLabel, elseTarget];
    assert Targets(Copy(tv.result, x)) + Targets(Jump(endLabel)) == [endLabel];
  }

  lemma IfHeadCreated(cv: Emitted, thenLabel: Label, elseTarget: Label, endLabel: Label, tv: Emitted, x: IRVar)
    ensures Created(IfHead(cv, thenLabel, elseTarget, endLabel, tv, x)) == Created(cv.code) + Created(tv.code)
  {
    IfHeadFlat(cv, thenLabel, elseTarget, endLabel, tv, x, CreatedOf);
    assert CreatedOf(CondJump(cv.result, thenLabel, elseTarget)) + CreatedOf(LabelInsn(thenLabel)) == [];
    assert CreatedOf(Copy(tv.result, x)) + CreatedOf(Jump(endLabel)) == [];
  }

  lemma ElsePartParts(elseLabel: Label, ev: Emitted, x: IRVar, endLabel: Label)
    ensures DefinedLabels(ElsePart(elseLabel, ev, x, endLabel)) == [elseLabel] + DefinedLabels(ev.code) + [endLabel]
    ensures JumpTargets(ElsePart(elseLabel, ev, x, endLabel)) == JumpTargets(ev.code)
    ensures Created(ElsePart(elseLabel, ev, x, endLabel)) == Created(ev.code)
  {
    var p := [LabelInsn(elseLabel)];
    var q := [Copy(ev.result, x), LabelInsn(endLabel)];
    FlatMapConcat3(p, ev.code, q, LabelsOf);
    FlatMapConcat3(p, ev.code, q, Targets);
    FlatMapConcat3(p, ev.code, q, CreatedOf);
    FlatMapSingle(p[0], LabelsOf);
    FlatMapSingle(p[0], Targets);
    FlatMapSingle(p[0], CreatedOf);
    FlatMapPair(q[0], q[1], LabelsOf);
    FlatMapPair(q[0], q[1], Targets);
    FlatMapPair(q[0], q[1], CreatedOf);
  }

  /** The labels of an `if` with else-branch, in the order they are placed:
      the condition's, the then-label numbered `n`, the then-branch's, the
      else-label `n + 1`, the else-branch's, the end label `n + 2`. The
      branches' own labels are numbered after `n + 2`, so none is placed twice. */
  lemma IfElseLabelOrder<T>(a: seq<T>, b: seq<T>, c: seq<T>, t0: T, t1: T, t2: T, num: T -> Option<nat>, lo: nat, n: nat, mid: nat, hi: nat)
    requires num(t0) == Some(n) && num(t1) == Some(n + 1) && num(t2) == Some(n + 2)
    requires NoDuplicates(a) && Within(a, num, lo, n)
    requires NoDuplicates(b) && Within(b, num, n + 3, mid)
    requires NoDuplicates(c) && Within(c, num, mid, hi)
    requires lo <= n && n + 3 <= mid <= hi
    ensures NoDuplicates(a + [t0] + b + ([t1] + c + [t2]))
    ensures Within(a + [t0] + b + ([t1] + c + [t2]), num, lo, hi)
  {
    var s1 := a + [t0];
    AppendWithin(a, [t0], num, lo, n, n + 1);
    var s2 := s1 + b;
    NoDuplicatesConcat(s1, b);
    assert forall x :: x in s2 ==> num(x).Some? && lo <= num(x).value && (num(x).value <= n || n + 3 <= num(x).value < mid);
    var s3 := s2 + [t1];
    NoDuplicatesConcat(s2, [t1]);
    assert forall x :: x in s3 ==> num(x).Some? && lo <= num(x).value && (num(x).value <= n + 1 || n + 3 <= num(x).value < mid);
    var s4 := s3 + c;
    NoDuplicatesConcat(s3, c);
    assert forall x :: x in s4 ==> num(x).Some? && lo <= num(x).value < hi && num(x).value != n + 2;
    NoDuplicatesConcat(s4, [t2]);
    assert s4 + [t2] == a + [t0] + b + ([t1] + c + [t2]);
  }

  /** The labels of an `if` without else-branch: the condition's, the
      then-label `n`, the then-branch's, the end label `n + 1`. */
  lemma IfLabelOrder<T>(a: seq<T>, b: seq<T>, t0: T, t1: T, num: T -> Option<nat>, lo: nat, n: nat, hi: nat)
    requires num(t0) == Some(n) && num(t1) == Some(n + 1)
    requires NoDuplicates(a) && Within(a, num, lo, n)
    requires NoDuplicates(b) && Within(b, num, n + 2, hi)
    requires lo <= n && n + 2 <= hi
    ensures NoDuplicates(a + [t0] + b + [t1])
    ensures Within(a + [t0] + b + [t1], num, lo, hi)
  {
    var s1 := a + [t0];
    AppendWithin(a, [t0], num, lo, n, n + 1);
    var s2 := s1 + b;
    NoDuplicatesConcat(s1, b);
    assert forall x :: x in s2 ==> num(x).Some? && lo <= num(x).value < hi && num(x).value != n + 1;
    NoDuplicatesConcat(s2, [t1]);
  }

  /** A binary operator's code is disciplined when its operands' codes are. */
  lemma BinaryCodeDisciplined(a: Emitted, b: Emitted, op: string, x: IRVar, varLo: nat, varMid: nat, varHi: nat, labelLo: nat, labelMid: nat, labelHi: nat)
    requires Disciplined(a.code, varLo, varMid, labelLo, labelMid)
    requires Disciplined(b.code, varMid, varHi, labelMid, labelHi)
    requires VarNo(x) == Some(varHi)
    requires varLo <= varMid <= varHi && labelLo <= labelMid <= labelHi
    ensures Disciplined(a.code + b.code + [Call(IRVar(op), [a.result, b.result], x)], varLo, varHi + 1, labelLo, labelHi)
  {
    var call := [Call(IRVar(op), [a.result, b.result], x)];
    FlatMapConcat3(a.code, b.code, call, LabelsOf);
    FlatMapConcat3(a.code, b.code, call, Targets);
    FlatMapConcat3(a.code, b.code, call, CreatedOf);
    FlatMapSingle(call[0], LabelsOf);
    FlatMapSingle(call[0], Targets);
    FlatMapSingle(call[0], CreatedOf);
    AppendWithin(DefinedLabels(a.code), DefinedLabels(b.code), LabelNum, labelLo, labelMid, labelHi);
    AppendWithin(Created(a.code), Created(b.code), VarNo, varLo, varMid, varHi);
    AppendWithin(Created(a.code) + Created(b.code), [x], VarNo, varLo, varHi, varHi + 1);
  }

  /** An `if` with else-branch is disciplined when its three parts are: the
      condition's code, the then-branch's code (visited after the three
      labels `L<n>`, `L<n+1>`, `L<n+2>` are taken) and the else-branch's code
      (visited after the result variable is taken). */
  lemma IfElseCodeDisciplined(cv: Emitted, tv: Emitted, ev: Emitted, x: IRVar,
                              varLo: nat, varCond: nat, varThen: nat, varHi: nat,
                              labelLo: nat, n: nat, labelThen: nat, labelHi: nat)
    requires Disciplined(cv.code, varLo, varCond, labelLo, n)
    requires Disciplined(tv.code, varCond, varThen, n + 3, labelThen)
    requires Disciplined(ev.code, varThen + 1, varHi, labelThen, labelHi)
    requires VarNo(x) == Some(varThen)
    requires varLo <= varCond <= varThen < varHi && labelLo <= n && n + 3 <= labelThen <= labelHi
    ensures Disciplined(IfHead(cv, LabelNo(n), LabelNo(n + 1), LabelNo(n + 2), tv, x) + ElsePart(LabelNo(n + 1), ev, x, LabelNo(n + 2)),
                        varLo, varHi, labelLo, labelHi)
  {
    var head := IfHead(cv, LabelNo(n), LabelNo(n + 1), LabelNo(n + 2), tv, x);
    var tail := ElsePart(LabelNo(n + 1), ev, x, LabelNo(n + 2));
    var defined := DefinedLabels(cv.code) + [LabelNo(n)] + DefinedLabels(tv.code) + ([LabelNo(n + 1)] + DefinedLabels(ev.code) + [LabelNo(n + 2)]);
    assert DefinedLabels(head + tail) == defined by {
      FlatMapConcat(head, tail, LabelsOf);
      IfHeadLabels(cv, LabelNo(n), LabelNo(n + 1), LabelNo(n + 2), tv, x);
      ElsePartParts(LabelNo(n + 1), ev, x, LabelNo(n + 2));
    }
    assert NoDuplicates(defined) && LabelsWithin(defined, labelLo, labelHi) by {
      NumberOfNumbered("L", n);
      NumberOfNumbered("L", n + 1);
      NumberOfNumbered("L", n + 2);
      IfElseLabelOrder(DefinedLabels(cv.code), DefinedLabels(tv.code), DefinedLabels(ev.code), LabelNo(n), LabelNo(n + 1), LabelNo(n + 2),
        LabelNum, labelLo, n, labelThen, labelHi);
    }
    assert JumpTargets(head + tail) == JumpTargets(cv.code) + [LabelNo(n), LabelNo(n + 1)] + JumpTargets(tv.code) + [LabelNo(n + 2)] + JumpTargets(ev.code) by {
      FlatMapConcat(head, tail, Targets);
      IfHeadTargets(cv, LabelNo(n), LabelNo(n + 1), LabelNo(n + 2), tv, x);
      ElsePartParts(LabelNo(n + 1), ev, x, LabelNo(n + 2));
    }
    assert Created(head + tail) == Created(cv.code) + Created(tv.code) + Created(ev.code) by {
      FlatMapConcat(head, tail, CreatedOf);
      IfHeadCreated(cv, LabelNo(n), LabelNo(n + 1), LabelNo(n + 2), tv, x);
      ElsePartParts(LabelNo(n + 1), ev, x, LabelNo(n + 2));
    }
    assert NoDuplicates(Created(head + tail)) && VarsWithin(Created(head + tail), varLo, varHi) by {
      AppendWithin(Created(cv.code), Created(tv.code), VarNo, varLo, varCond, varThen);
      AppendWithin(Created(cv.code) + Created(tv.code), Created(ev.code), VarNo, varLo, varThen, varHi);
    }
  }

  /** The labels, jump targets and computed variables of an `if` without
      else-branch, from those of its two parts. */
  lemma IfThenCodeParts(cv: Emitted, tv: Emitted, x: IRVar, n: nat)
    ensures
      var code := IfHead(cv, LabelNo(n), LabelNo(n + 1), LabelNo(n + 1), tv, x) + [LabelInsn(LabelNo(n + 1))];
      DefinedLabels(code) == DefinedLabels(cv.code) + [LabelNo(n)] + DefinedLabels(tv.code) + [LabelNo(n + 1)]
      && JumpTargets(code) == JumpTargets(cv.code) + [LabelNo(n), LabelNo(n + 1)] + JumpTargets(tv.code) + [LabelNo(n + 1)]
      && Created(code) == Created(cv.code) + Created(tv.code)
  {
    var head := IfHead(cv, LabelNo(n), LabelNo(n + 1), LabelNo(n + 1), tv, x);
    var tail := [LabelInsn(LabelNo(n + 1))];
    FlatMapConcat(head, tail, LabelsOf);
    FlatMapConcat(head, tail, Targets);
    FlatMapConcat(head, tail, CreatedOf);
    FlatMapSingle(tail[0], LabelsOf);
    FlatMapSingle(tail[0], Targets);
    FlatMapSingle(tail[0], CreatedOf);
    IfHeadLabels(cv, LabelNo(n), LabelNo(n + 1), LabelNo(n + 1), tv, x);
    IfHeadTargets(cv, LabelNo(n), LabelNo(n + 1), LabelNo(n + 1), tv, x);
    IfHeadCreated(cv, LabelNo(n), LabelNo(n + 1), LabelNo(n + 1), tv, x);
  }

  /** An `if` without else-branch is disciplined when the condition's and the
      then-branch's codes are; its labels are `L<n>` and `L<n+1>`. */
  lemma IfThenCodeDisciplined(cv: Emitted, tv: Emitted, x: IRVar,
                              varLo: nat, varCond: nat, varThen: nat,
                              labelLo: nat, n: nat, labelHi: nat)
    requires Disciplined(cv.code, varLo, varCond, labelLo, n)
    requires Disciplined(tv.code, varCond, varThen, n + 2, labelHi)
    requires varLo <= varCond <= varThen && labelLo <= n && n + 2 <= labelHi
    ensures Disciplined(IfHead(cv, LabelNo(n), LabelNo(n + 1), LabelNo(n + 1), tv, x) + [LabelInsn(LabelNo(n + 1))],
                        varLo, varThen + 1, labelLo, labelHi)
  {
    var code := IfHead(cv, LabelNo(n), LabelNo(n + 1), LabelNo(n + 1), tv, x) + [LabelInsn(LabelNo(n + 1))];
    var defined := DefinedLabels(cv.code) + [LabelNo(n)] + DefinedLabels(tv.code) + [LabelNo(n + 1)];
    IfThenCodeParts(cv, tv, x, n);
    assert NoDuplicates(defined) && LabelsWithin(defined, labelLo, labelHi) by {
      NumberOfNumbered("L", n);
      NumberOfNumbered("L", n + 1);
      IfLabelOrder(DefinedLabels(cv.code), DefinedLabels(tv.code), LabelNo(n), LabelNo(n + 1), LabelNum, labelLo, n, labelHi);
    }
    assert forall l :: l in JumpTargets(code) ==> l in defined by {
      assert JumpTargets(code) == JumpTargets(cv.code) + [LabelNo(n), LabelNo(n + 1)] + JumpTargets(tv.code) + [LabelNo(n + 1)];
    }
    assert NoDuplicates(Created(code)) && VarsWithin(Created(code), varLo, varThen + 1) by {
      AppendWithin(Created(cv.code), Created(tv.code), VarNo, varLo, varCond, varThen);
      assert forall v :: v in Created(code) ==> VarNo(v).value < varThen + 1;
    }
  }

  /** Every translation is disciplined: labels placed once and fresh, jump
      targets placed, computed variables computed once and fresh. */
  lemma {:induction false} VisitDisciplined(e: Expr, c: Counters)
    requires ValidCounters(c) && Visit(e, c).Ok?
    ensures Disciplined(Visit(e, c).value.code, c.nextVar, Visit(e, c).value.after.nextVar, c.nextLabel, Visit(e, c).value.after.nextLabel)
    decreases e, 2
  {
    match e
    case Literal(v) =>
      var r := Visit(e, c).value;
      FlatMapSingle(r.code[0], LabelsOf);
      FlatMapSingle(r.code[0], Targets);
      FlatMapSingle(r.code[0], CreatedOf);
    case BinaryOp(left, op, right) =>
      BinaryDisciplined(left, op, right, Typecheck(e).value, c);
    case IfExpression(cond, thenClause, elseClause) =>
      if elseClause.Some? {
        IfElseDisciplined(cond, thenClause, elseClause.value, Typecheck(e).value, c);
      } else {
        IfThenDisciplined(cond, thenClause, Typecheck(e).value, c);
      }
  }

  lemma {:induction false} BinaryDisciplined(left: Expr, op: string, right: Expr, t: Type, c: Counters)
    requires ValidCounters(c) && VisitBinary(left, op, right, t, c).Ok?
    ensures
      var r := VisitBinary(left, op, right, t, c).value;
      Disciplined(r.code, c.nextVar, r.after.nextVar, c.nextLabel, r.after.nextLabel)
    decreases BinaryOp(left, op, right), 1
  {
    var r := VisitBinary(left, op, right, t, c).value;
    BinaryPieces(left, op, right, t, c);
    var a := Visit(left, c).value;
    VisitKeepsTypes(left, c);
    VisitDisciplined(left, c);
    var b := Visit(right, a.after).value;
    VisitKeepsTypes(right, a.after);
    VisitDisciplined(right, a.after);
    BinaryCodeDisciplined(a, b, op, r.result, c.nextVar, a.after.nextVar, b.after.nextVar, c.nextLabel, a.after.nextLabel, b.after.nextLabel);
  }

  lemma {:induction false} IfElseDisciplined(cond: Expr, thenClause: Expr, elseClause: Expr, t: Type, c: Counters)
    requires ValidCounters(c) && VisitIf(cond, thenClause, Some(elseClause), t, c).Ok?
    ensures
      var r := VisitIf(cond, thenClause, Some(elseClause), t, c).value;
      Disciplined(r.code, c.nextVar, r.after.nextVar, c.nextLabel, r.after.nextLabel)
    decreases IfExpression(cond, thenClause, Some(elseClause)), 1
  {
    var r := VisitIf(cond, thenClause, Some(elseClause), t, c).value;
    var cv, tv, ev := IfElseShape(cond, thenClause, elseClause, t, c);
    var n := cv.after.nextLabel;
    var c3 := IfBranchCounters(cv.after, true);
    var c4 := NewVar(tv.after, t).1;
    assert Disciplined(cv.code, c.nextVar, cv.after.nextVar, c.nextLabel, n)
        && c.nextVar < cv.after.nextVar && c.nextLabel <= n && ValidCounters(cv.after) by {
      VisitAdvances(cond, c);
      VisitDisciplined(cond, c);
    }
    assert Disciplined(tv.code, cv.after.nextVar, tv.after.nextVar, n + 3, tv.after.nextLabel)
        && cv.after.nextVar < tv.after.nextVar && n + 3 <= tv.after.nextLabel && ValidCounters(tv.after) by {
      VisitAdvances(thenClause, c3);
      VisitDisciplined(thenClause, c3);
    }
    assert Disciplined(ev.code, tv.after.nextVar + 1, r.after.nextVar, tv.after.nextLabel, r.after.nextLabel)
        && tv.after.nextVar + 1 < r.after.nextVar && tv.after.nextLabel <= r.after.nextLabel by {
      VisitAdvances(elseClause, c4);
      VisitDisciplined(elseClause, c4);
    }
    IfElseCodeDisciplined(cv, tv, ev, r.result, c.nextVar, cv.after.nextVar, tv.after.nextVar, r.after.nextVar,
                          c.nextLabel, n, tv.after.nextLabel, r.after.nextLabel);
  }

  lemma {:induction false} IfThenDisciplined(cond: Expr, thenClause: Expr, t: Type, c: Counters)
    requires ValidCounters(c) && VisitIf(cond, thenClause, None, t, c).Ok?
    ensures
      var r := VisitIf(cond, thenClause, None, t, c).value;
      Disciplined(r.code, c.nextVar, r.after.nextVar, c.nextLabel, r.after.nextLabel)
    decreases IfExpression(cond, thenClause, None), 1
  {
    var r := VisitIf(cond, thenClause, None, t, c).value;
    var cv, tv := IfThenShape(cond, thenClause, t, c);
    IfThenPartsDisciplined(cond, thenClause, c, cv, tv);
    IfThenCodeDisciplined(cv, tv, r.result, c.nextVar, cv.after.nextVar, tv.after.nextVar,
                          c.nextLabel, cv.after.nextLabel, r.after.nextLabel);
  }

  /** The condition and the branch of an `if` without else are disciplined
      within the ranges their counters leave them. */
  lemma {:induction false} IfThenPartsDisciplined(cond: Expr, thenClause: Expr, c: Counters, cv: Emitted, tv: Emitted)
    requires ValidCounters(c) && Visit(cond, c) == Ok(cv)
    requires Visit(thenClause, IfBranchCounters(cv.after, false)) == Ok(tv)
    ensures Disciplined(cv.code, c.nextVar, cv.after.nextVar, c.nextLabel, cv.after.nextLabel)
    ensures c.nextVar < cv.after.nextVar && c.nextLabel <= cv.after.nextLabel
    ensures Disciplined(tv.code, cv.after.nextVar, tv.after.nextVar, cv.after.nextLabel + 2, tv.after.nextLabel)
    ensures cv.after.nextVar < tv.after.nextVar && cv.after.nextLabel + 2 <= tv.after.nextLabel
    decreases IfExpression(cond, thenClause, None), 0
  {
    var c3 := IfBranchCounters(cv.after, false);
    VisitAdvances(cond, c);
    VisitDisciplined(cond, c);
    VisitAdvances(thenClause, c3);
    VisitDisciplined(thenClause, c3);
  }

  // ---------------------------------------------------------------------------
  // When the translation succeeds

  /** A node is translated exactly when the checker accepts it: every subtree
      of an accepted tree is accepted too, so no visit below it fails. */
  lemma {:induction false} VisitSucceeds(e: Expr, c: Counters)
    ensures Visit(e, c).Ok? <==> Typecheck(e).Ok?
    decreases e, 2
  {
    if Typecheck(e).Ok? {
      match e
      case Literal(v) =>
      case BinaryOp(left, op, right) =>
        BinarySucceeds(left, op, right, Typecheck(e).value, c);
      case IfExpression(cond, thenClause, elseClause) =>
        IfSucceeds(cond, thenClause, elseClause, Typecheck(e).value, c);
    }
  }

  lemma {:induction false} BinarySucceeds(left: Expr, op: string, right: Expr, t: Type, c: Counters)
    requires Typecheck(left).Ok? && Typecheck(right).Ok?
    ensures VisitBinary(left, op, right, t, c).Ok?
    decreases BinaryOp(left, op, right), 1
  {
    VisitSucceeds(left, c);
    VisitSucceeds(right, Visit(left, c).value.after);
  }

  lemma {:induction false} IfSucceeds(cond: Expr, thenClause: Expr, elseClause: Option<Expr>, t: Type, c: Counters)
    requires Typecheck(cond).Ok? && Typecheck(thenClause).Ok?
    requires elseClause.Some? ==> Typecheck(elseClause.value).Ok?
    ensures VisitIf(cond, thenClause, elseClause, t, c).Ok?
    decreases IfExpression(cond, thenClause, elseClause), 1
  {
    VisitSucceeds(cond, c);
    var c3 := IfBranchCounters(Visit(cond, c).value.after, elseClause.Some?);
    VisitSucceeds(thenClause, c3);
    var c4 := NewVar(Visit(thenClause, c3).value.after, t).1;
    if elseClause.Some? {
      VisitSucceeds(elseClause.value, c4);
    }
    IfOk(cond, thenClause, elseClause, t, c);
  }

  /** An `if` is translated when its parts are. */
  lemma IfOk(cond: Expr, thenClause: Expr, elseClause: Option<Expr>, t: Type, c: Counters)
    requires Visit(cond, c).Ok?
    requires Visit(thenClause, IfBranchCounters(Visit(cond, c).value.after, elseClause.Some?)).Ok?
    requires
      var c4 := NewVar(Visit(thenClause, IfBranchCounters(Visit(cond, c).value.after, elseClause.Some?)).value.after, t).1;
      elseClause.Some? ==> Visit(elseClause.value, c4).Ok?
    ensures VisitIf(cond, thenClause, elseClause, t, c).Ok?
  {
    var cv := Visit(cond, c).value;
    var thenLabel := NewLabel(cv.after);
    var elseLabel := NewElseLabel(thenLabel.1, elseClause.Some?);
    var endLabel := NewLabel(elseLabel.1);
    assert endLabel.1 == IfBranchCounters(cv.after, elseClause.Some?);
  }

  /** The whole translation fails exactly on the trees the checker rejects. */
  lemma GenerateSucceeds(root: Expr)
    ensures Generate(root).Ok? <==> Typecheck(root).Ok?
  {
    VisitSucceeds(root, InitialCounters());
  }

  // ---------------------------------------------------------------------------
  // The final print call

  predicate IsPrintFunction(f: IRVar) {
    f.name == "print_int" || f.name == "print_bool"
  }

  /** The print function an instruction calls, if it is such a call. */
  function PrintsOf(insn: Instruction): seq<IRVar> {
    if insn.Call? && IsPrintFunction(insn.fun) then [insn.fun] else []
  }

  /** The print functions called, in order. */
  function PrintCalls(code: seq<Instruction>): seq<IRVar> {
    FlatMap(code, PrintsOf)
  }

  lemma ElsePartFlat<U>(elseLabel: Label, ev: Emitted, x: IRVar, endLabel: Label, f: Instruction -> seq<U>)
    ensures FlatMap(ElsePart(elseLabel, ev, x, endLabel), f)
      == f(LabelInsn(elseLabel)) + FlatMap(ev.code, f) + (f(Copy(ev.result, x)) + f(LabelInsn(endLabel)))
  {
    var p := [LabelInsn(elseLabel)];
    var q := [Copy(ev.result, x), LabelInsn(endLabel)];
    FlatMapConcat3(p, ev.code, q, f);
    FlatMapSingle(p[0], f);
    FlatMapPair(q[0], q[1], f);
  }

  /** The control instructions of an `if` call nothing, so its code prints
      only where its parts do. */
  lemma IfPrintsNothing(cv: Emitted, thenLabel: Label, elseTarget: Label, endLabel: Label, tv: Emitted, x: IRVar, tail: seq<Instruction>)
    requires PrintCalls(cv.code) == [] && PrintCalls(tv.code) == [] && PrintCalls(tail) == []
    ensures PrintCalls(IfHead(cv, thenLabel, elseTarget, endLabel, tv, x) + tail) == []
  {
    IfHeadFlat(cv, thenLabel, elseTarget, endLabel, tv, x, PrintsOf);
    FlatMapConcat(IfHead(cv, thenLabel, elseTarget, endLabel, tv, x), tail, PrintsOf);
  }

  lemma ElsePrintsNothing(elseLabel: Label, ev: Emitted, x: IRVar, endLabel: Label)
    requires PrintCalls(ev.code) == []
    ensures PrintCalls(ElsePart(elseLabel, ev, x, endLabel)) == []
  {
    ElsePartFlat(elseLabel, ev, x, endLabel, PrintsOf);
  }

  /** A tree's own code calls only the operators the checker accepts, never a
      print function. */
  lemma {:induction false} VisitPrintsNothing(e: Expr, c: Counters)
    requires Visit(e, c).Ok?
    ensures PrintCalls(Visit(e, c).value.code) == []
    decreases e, 2
  {
    match e
    case Literal(v) =>
      FlatMapSingle(Visit(e, c).value.code[0], PrintsOf);
    case BinaryOp(left, op, right) =>
      BinaryPrintsNothing(left, op, right, Typecheck(e).value, c);
    case IfExpression(cond, thenClause, elseClause) =>
      if elseClause.Some? {
        IfElsePrintsNothing(cond, thenClause, elseClause.value, Typecheck(e).value, c);
      } else {
        IfThenPrintsNothing(cond, thenClause, Typecheck(e).value, c);
      }
  }

  lemma {:induction false} BinaryPrintsNothing(left: Expr, op: string, right: Expr, t: Type, c: Counters)
    requires IsArithmeticOp(op) || IsComparisonOp(op)
    requires VisitBinary(left, op, right, t, c).Ok?
    ensures PrintCalls(VisitBinary(left, op, right, t, c).value.code) == []
    decreases BinaryOp(left, op, right), 1
  {
    var r := VisitBinary(left, op, right, t, c).value;
    BinaryPieces(left, op, right, t, c);
    var a := Visit(left, c).value;
    var b := Visit(right, a.after).value;
    var call := [Call(IRVar(op), [a.result, b.result], r.result)];
    assert r.code == a.code + b.code + call;
    assert PrintCalls(call) == [] by {
      FlatMapSingle(call[0], PrintsOf);
      assert !IsPrintFunction(IRVar(op));
    }
    assert PrintCalls(a.code) == [] && PrintCalls(b.code) == [] by {
      VisitPrintsNothing(left, c);
      VisitPrintsNothing(right, a.after);
    }
    FlatMapConcat3(a.code, b.code, call, PrintsOf);
  }

  lemma {:induction false} IfElsePrintsNothing(cond: Expr, thenClause: Expr, elseClause: Expr, t: Type, c: Counters)
    requires VisitIf(cond, thenClause, Some(elseClause), t, c).Ok?
    ensures PrintCalls(VisitIf(cond, thenClause, Some(elseClause), t, c).value.code) == []
    decreases IfExpression(cond, thenClause, Some(elseClause)), 1
  {
    var r := VisitIf(cond, thenClause, Some(elseClause), t, c).value;
    var cv, tv, ev := IfElseShape(cond, thenClause, elseClause, t, c);
    var c3 := IfBranchCounters(cv.after, true);
    assert PrintCalls(cv.code) == [] by {
      VisitPrintsNothing(cond, c);
    }
    assert PrintCalls(tv.code) == [] by {
      VisitPrintsNothing(thenClause, c3);
    }
    assert PrintCalls(ev.code) == [] by {
      VisitPrintsNothing(elseClause, NewVar(tv.after, t).1);
    }
    var n := cv.after.nextLabel;
    ElsePrintsNothing(LabelNo(n + 1), ev, r.result, LabelNo(n + 2));
    IfPrintsNothing(cv, LabelNo(n), LabelNo(n + 1), LabelNo(n + 2), tv, r.result, ElsePart(LabelNo(n + 1), ev, r.result, LabelNo(n + 2)));
  }

  lemma {:induction false} IfThenPrintsNothing(cond: Expr, thenClause: Expr, t: Type, c: Counters)
    requires VisitIf(cond, thenClause, None, t, c).Ok?
    ensures PrintCalls(VisitIf(cond, thenClause, None, t, c).value.code) == []
    decreases IfExpression(cond, thenClause, None), 1
  {
    var r := VisitIf(cond, thenClause, None, t, c).value;
    var cv, tv := IfThenShape(cond, thenClause, t, c);
    var c3 := IfBranchCounters(cv.after, false);
    assert PrintCalls(cv.code) == [] by {
      VisitPrintsNothing(cond, c);
    }
    assert PrintCalls(tv.code) == [] by {
      VisitPrintsNothing(thenClause, c3);
    }
    var n := cv.after.nextLabel;
    EndLabelPrintsNothing(n + 1);
    IfPrintsNothing(cv, LabelNo(n), LabelNo(n + 1), LabelNo(n + 1), tv, r.result, [LabelInsn(LabelNo(n + 1))]);
  }

  lemma EndLabelPrintsNothing(n: nat)
    ensures PrintCalls([LabelInsn(LabelNo(n))]) == []
  {
    FlatMapSingle(LabelInsn(LabelNo(n)), PrintsOf);
  }

  /** The final call prints with the function its type selects, places no
      label, jumps nowhere and computes the next fresh variable. */
  lemma PrintResultParts(x: IRVar, c: Counters, t: Type)
    ensures PrintCalls(PrintResult(x, c, t)) == (if t == Int then [IRVar("print_int")] else if t == Bool then [IRVar("print_bool")] else [])
    ensures DefinedLabels(PrintResult(x, c, t)) == [] && JumpTargets(PrintResult(x, c, t)) == []
    ensures Created(PrintResult(x, c, t)) == (if t == Int || t == Bool then [NewVar(c, Int).0] else [])
    ensures t == Int || t == Bool ==> PrintResult(x, c, t)[0].args == [x]
  {
    var code := PrintResult(x, c, t);
    if |code| == 1 {
      FlatMapSingle(code[0], PrintsOf);
      FlatMapSingle(code[0], LabelsOf);
      FlatMapSingle(code[0], Targets);
      FlatMapSingle(code[0], CreatedOf);
    }
  }

  /** The program prints its value exactly when it has one: one call of
      `print_int` for an `Int` tree, one of `print_bool` for a `Bool` tree,
      none for `Unit`. The call comes last, after the tree's code unchanged,
      and passes the variable holding the tree's value. */
  lemma GeneratePrints(root: Expr)
    requires Generate(root).Ok?
    ensures
      var code := Generate(root).value;
      var v := Visit(root, InitialCounters()).value;
      var t := Typecheck(root).value;
      && PrintCalls(code) == (if t == Int then [IRVar("print_int")] else if t == Bool then [IRVar("print_bool")] else [])
      && |v.code| <= |code| && code[..|v.code|] == v.code
      && (t != Unit ==> |code| == |v.code| + 1 && code[|code| - 1].Call? && code[|code| - 1].args == [v.result])
      && (t == Unit ==> code == v.code)
  {
    var v := Visit(root, InitialCounters()).value;
    var t := Typecheck(root).value;
    var tail := PrintResult(v.result, v.after, t);
    assert Generate(root).value == v.code + tail by {
      GenerateStep(root);
    }
    assert PrintCalls(v.code) == [] by {
      VisitPrintsNothing(root, InitialCounters());
    }
    PrintResultParts(v.result, v.after, t);
    FlatMapConcat(v.code, tail, PrintsOf);
  }

  /** Appending the final call to disciplined code keeps it disciplined,
      the call's variable being the next fresh one. */
  lemma PrintResultDisciplined(v: Emitted, t: Type, varLo: nat, labelLo: nat, labelHi: nat)
    requires Disciplined(v.code, varLo, v.after.nextVar, labelLo, labelHi)
    requires varLo <= v.after.nextVar
    ensures Disciplined(v.code + PrintResult(v.result, v.after, t), varLo, v.after.nextVar + 1, labelLo, labelHi)
  {
    var tail := PrintResult(v.result, v.after, t);
    PrintResultParts(v.result, v.after, t);
    FlatMapConcat(v.code, tail, LabelsOf);
    FlatMapConcat(v.code, tail, Targets);
    FlatMapConcat(v.code, tail, CreatedOf);
    AppendWithin(Created(v.code), Created(tail), VarNo, varLo, v.after.nextVar, v.after.nextVar + 1);
  }

  /** The whole program keeps the discipline of its tree's code: every label
      is placed once, every jump target is placed, and every variable is
      computed by one instruction only, the final call's included. */
  lemma GenerateDisciplined(root: Expr)
    requires Generate(root).Ok?
    ensures
      var code := Generate(root).value;
      NoDuplicates(DefinedLabels(code))
      && (forall l :: l in JumpTargets(code) ==> l in DefinedLabels(code))
      && NoDuplicates(Created(code))
  {
    var c := InitialCounters();
    var v := Visit(root, c).value;
    VisitKeepsTypes(root, c);
    VisitDisciplined(root, c);
    PrintResultDisciplined(v, v.after.varTypes[v.result], c.nextVar, c.nextLabel, v.after.nextLabel);
  }

  // ---------------------------------------------------------------------------
  // Outcomes fixed by tests/ir_generator_test.py

  /** The first names handed out, spelled out. */
  lemma SmallNames()
    ensures XVar(1) == IRVar("x1") && XVar(2) == IRVar("x2") && XVar(3) == IRVar("x3") && XVar(4) == IRVar("x4")
    ensures XVar(5) == IRVar("x5") && XVar(6) == IRVar("x6") && XVar(7) == IRVar("x7")
    ensures LabelNo(1) == Label("L1") && LabelNo(2) == Label("L2") && LabelNo(3) == Label("L3")
  {
    assert NatToString(1) == "1" && NatToString(2) == "2" && NatToString(3) == "3" && NatToString(4) == "4";
    assert NatToString(5) == "5" && NatToString(6) == "6" && NatToString(7) == "7";
  }

  /** A literal other than `None` becomes one load into the next variable. */
  lemma LiteralStep(v: LiteralValue, c: Counters)
    requires !v.NoneLit?
    ensures Visit(Literal(v), c).Ok?
    ensures
      var r := Visit(Literal(v), c).value;
      r.result == XVar(c.nextVar) && r.code == [LoadIntConst(v, XVar(c.nextVar))]
      && r.after.nextVar == c.nextVar + 1 && r.after.nextLabel == c.nextLabel
  {
  }

  /** A binary operator's code: its operands' codes, then the call into the
      variable after theirs. */
  lemma BinaryStep(left: Expr, op: string, right: Expr, c: Counters)
    requires Visit(BinaryOp(left, op, right), c).Ok?
    ensures Visit(left, c).Ok? && Visit(right, Visit(left, c).value.after).Ok?
    ensures
      var a := Visit(left, c).value;
      var b := Visit(right, a.after).value;
      var r := Visit(BinaryOp(left, op, right), c).value;
      r.result == XVar(b.after.nextVar) && r.code == a.code + b.code + [Call(IRVar(op), [a.result, b.result], XVar(b.after.nextVar))]
      && r.after.nextVar == b.after.nextVar + 1 && r.after.nextLabel == b.after.nextLabel
  {
    BinaryPieces(left, op, right, Typecheck(BinaryOp(left, op, right)).value, c);
  }

  /** The program is the tree's code followed by the print call its type selects. */
  lemma GenerateStep(root: Expr)
    requires Generate(root).Ok?
    ensures
      var v := Visit(root, InitialCounters()).value;
      Generate(root).value == v.code + PrintResult(v.result, v.after, Typecheck(root).value)
  {
    VisitKeepsTypes(root, InitialCounters());
  }

  /** The tree `1 + 2` alone: its code and its result `x3`. */
  lemma VisitAdditionExample(e: Expr)
    requires e == BinaryOp(Lit(1), "+", Lit(2))
    ensures Typecheck(e) == Ok(Int) && Visit(e, InitialCounters()).Ok?
    ensures
      var v := Visit(e, InitialCounters()).value;
      v.result == XVar(3) && v.after.nextVar == 4
      && v.code == [LoadIntConst(IntLit(1), XVar(1)), LoadIntConst(IntLit(2), XVar(2)), Call(IRVar("+"), [XVar(1), XVar(2)], XVar(3))]
  {
    BinaryLiteralsStep(1, "+", 2, InitialCounters());
  }

  /** The program for `1 + 2`; `XVar(n)` is the variable `x<n>` (see `SmallNames`). */
  lemma GenerateAdditionExample(e: Expr)
    requires e == BinaryOp(Lit(1), "+", Lit(2))
    ensures Generate(e) == Ok([
      LoadIntConst(IntLit(1), XVar(1)),
      LoadIntConst(IntLit(2), XVar(2)),
      Call(IRVar("+"), [XVar(1), XVar(2)], XVar(3)),
      Call(IRVar("print_int"), [XVar(3)], XVar(4))])
  {
    VisitAdditionExample(e);
    GenerateSucceeds(e);
    GenerateStep(e);
    var v := Visit(e, InitialCounters()).value;
    assert PrintResult(v.result, v.after, Int) == [Call(IRVar("print_int"), [XVar(3)], XVar(4))];
    assert v.code + PrintResult(v.result, v.after, Int) == [
      LoadIntConst(IntLit(1), XVar(1)),
      LoadIntConst(IntLit(2), XVar(2)),
      Call(IRVar("+"), [XVar(1), XVar(2)], XVar(3)),
      Call(IRVar("print_int"), [XVar(3)], XVar(4))];
  }

  /** An `if` with else-branch at the level of whole nodes: the three labels
      follow the condition's, the shared result follows the then-branch's
      variables, and the else-branch is visited after it. */
  lemma IfElseStep(cond: Expr, thenClause: Expr, elseClause: Expr, c: Counters)
    requires Visit(IfExpression(cond, thenClause, Some(elseClause)), c).Ok?
    ensures Visit(cond, c).Ok?
    ensures
      var e := IfExpression(cond, thenClause, Some(elseClause));
      var cv := Visit(cond, c).value;
      var n := cv.after.nextLabel;
      Visit(thenClause, IfBranchCounters(cv.after, true)).Ok?
      && var tv := Visit(thenClause, IfBranchCounters(cv.after, true)).value;
      var c4 := NewVar(tv.after, Typecheck(e).value).1;
      Visit(elseClause, c4).Ok?
      && var ev := Visit(elseClause, c4).value;
      var r := Visit(e, c).value;
      r.result == XVar(tv.after.nextVar) && r.after == ev.after
      && r.code == IfHead(cv, LabelNo(n), LabelNo(n + 1), LabelNo(n + 2), tv, XVar(tv.after.nextVar))
                   + ElsePart(LabelNo(n + 1), ev, XVar(tv.after.nextVar), LabelNo(n + 2))
  {
    var t := IfNodeVisit(cond, thenClause, Some(elseClause), c);
    var cv, tv, ev := IfElseShape(cond, thenClause, elseClause, t, c);
  }

  /** An `if` node is visited as its typed translation. */
  lemma IfNodeVisit(cond: Expr, thenClause: Expr, elseClause: Option<Expr>, c: Counters) returns (t: Type)
    requires Visit(IfExpression(cond, thenClause, elseClause), c).Ok?
    ensures Typecheck(IfExpression(cond, thenClause, elseClause)) == Ok(t)
    ensures Visit(IfExpression(cond, thenClause, elseClause), c) == VisitIf(cond, thenClause, elseClause, t, c)
  {
    t := Typecheck(IfExpression(cond, thenClause, elseClause)).value;
  }

  /** Two integer literals joined by an accepted operator: two loads and the
      call, in the next three variables. */
  lemma BinaryLiteralsStep(m: int, op: string, k: int, c: Counters)
    requires IsArithmeticOp(op) || IsComparisonOp(op)
    ensures Visit(BinaryOp(Lit(m), op, Lit(k)), c).Ok?
    ensures
      var v := Visit(BinaryOp(Lit(m), op, Lit(k)), c).value;
      var n := c.nextVar;
      v.result == XVar(n + 2) && v.after.nextVar == n + 3 && v.after.nextLabel == c.nextLabel
      && v.code == [LoadIntConst(IntLit(m), XVar(n)), LoadIntConst(IntLit(k), XVar(n + 1)), Call(IRVar(op), [XVar(n), XVar(n + 1)], XVar(n + 2))]
  {
    VisitSucceeds(BinaryOp(Lit(m), op, Lit(k)), c);
    LiteralStep(IntLit(m), c);
    LiteralStep(IntLit(k), Visit(Lit(m), c).value.after);
    BinaryStep(Lit(m), op, Lit(k), c);
  }

  lemma IfExampleLayout(cv: Emitted, tv: Emitted, ev: Emitted)
    requires cv.result == XVar(3) && cv.code == [LoadIntConst(IntLit(1), XVar(1)), LoadIntConst(IntLit(2), XVar(2)), Call(IRVar("<"), [XVar(1), XVar(2)], XVar(3))]
    requires tv.result == XVar(4) && tv.code == [LoadIntConst(IntLit(3), XVar(4))]
    requires ev.result == XVar(6) && ev.code == [LoadIntConst(IntLit(4), XVar(6))]
    ensures IfHead(cv, LabelNo(1), LabelNo(2), LabelNo(3), tv, XVar(5)) + ElsePart(LabelNo(2), ev, XVar(5), LabelNo(3)) == [
        LoadIntConst(IntLit(1), XVar(1)),
        LoadIntConst(IntLit(2), XVar(2)),
        Call(IRVar("<"), [XVar(1), XVar(2)], XVar(3)),
        CondJump(XVar(3), LabelNo(1), LabelNo(2)),
        LabelInsn(LabelNo(1)),
        LoadIntConst(IntLit(3), XVar(4)),
        Copy(XVar(4), XVar(5)),
        Jump(LabelNo(3)),
        LabelInsn(LabelNo(2)),
        LoadIntConst(IntLit(4), XVar(6)),
        Copy(XVar(6), XVar(5)),
        LabelInsn(LabelNo(3))]
  {
  }

  /** The tree `if 1 < 2 then 3 else 4` alone. */
  lemma VisitIfExample(e: Expr)
    requires e == IfExpression(BinaryOp(Lit(1), "<", Lit(2)), Lit(3), Some(Lit(4)))
    ensures Typecheck(e) == Ok(Int) && Visit(e, InitialCounters()).Ok?
    ensures
      var v := Visit(e, InitialCounters()).value;
      v.result == XVar(5) && v.after.nextVar == 7
      && v.code == [
        LoadIntConst(IntLit(1), XVar(1)),
        LoadIntConst(IntLit(2), XVar(2)),
        Call(IRVar("<"), [XVar(1), XVar(2)], XVar(3)),
        CondJump(XVar(3), LabelNo(1), LabelNo(2)),
        LabelInsn(LabelNo(1)),
        LoadIntConst(IntLit(3), XVar(4)),
        Copy(XVar(4), XVar(5)),
        Jump(LabelNo(3)),
        LabelInsn(LabelNo(2)),
        LoadIntConst(IntLit(4), XVar(6)),
        Copy(XVar(6), XVar(5)),
        LabelInsn(LabelNo(3))]
  {
    var c0 := InitialCounters();
    var cond := BinaryOp(Lit(1), "<", Lit(2));
    assert Typecheck(e) == Ok(Int);
    VisitSucceeds(e, c0);
    BinaryLiteralsStep(1, "<", 2, c0);
    IfElseStep(cond, Lit(3), Lit(4), c0);
    var cv := Visit(cond, c0).value;
    var c3 := IfBranchCounters(cv.after, true);
    LiteralStep(IntLit(3), c3);
    var tv := Visit(Lit(3), c3).value;
    var c4 := NewVar(tv.after, Int).1;
    LiteralStep(IntLit(4), c4);
    IfExampleLayout(cv, tv, Visit(Lit(4), c4).value);
  }

  /** The program for `if 1 < 2 then 3 else 4`, with `XVar(n)` the variable
      `x<n>` and `LabelNo(n)` the label `L<n>` (see `SmallNames`). */
  lemma GenerateIfExample(e: Expr)
    requires e == IfExpression(BinaryOp(Lit(1), "<", Lit(2)), Lit(3), Some(Lit(4)))
    ensures Generate(e).Ok?
    ensures Generate(e).value == Visit(e, InitialCounters()).value.code + [Call(IRVar("print_int"), [XVar(5)], XVar(7))]
  {
    VisitIfExample(e);
    GenerateSucceeds(e);
    GenerateStep(e);
    var v := Visit(e, InitialCounters()).value;
    assert PrintResult(v.result, v.after, Int) == [Call(IRVar("print_int"), [XVar(5)], XVar(7))];
  }

  /** The program for the literal `true`: a load and a `print_bool` call. */
  lemma GenerateBoolExample(e: Expr)
    requires e == Literal(BoolLit(true))
    ensures Generate(e) == Ok([LoadIntConst(BoolLit(true), XVar(1)), Call(IRVar("print_bool"), [XVar(1)], XVar(2))])
  {
    assert Typecheck(e) == Ok(Bool);
    LiteralStep(BoolLit(true), InitialCounters());
    GenerateSucceeds(e);
    GenerateStep(e);
    var v := Visit(e, InitialCounters()).value;
    assert PrintResult(v.result, v.after, Bool) == [Call(IRVar("print_bool"), [XVar(1)], XVar(2))];
    assert v.code + PrintResult(v.result, v.after, Bool) == [LoadIntConst(BoolLit(true), XVar(1)), Call(IRVar("print_bool"), [XVar(1)], XVar(2))];
  }

  /** `1 + if 2 < 3 then 4 * 5` is rejected: an `if` without else-branch is
      `Unit`, which `+` does not take. */
  lemma GenerateRejectsUnitOperand(e: Expr)
    requires e == BinaryOp(Lit(1), "+", IfExpression(BinaryOp(Lit(2), "<", Lit(3)), BinaryOp(Lit(4), "*", Lit(5)), None))
    ensures Generate(e).Err?
  {
    var inner := IfExpression(BinaryOp(Lit(2), "<", Lit(3)), BinaryOp(Lit(4), "*", Lit(5)), None);
    assert Typecheck(BinaryOp(Lit(2), "<", Lit(3))) == Ok(Bool);
    assert Typecheck(BinaryOp(Lit(4), "*", Lit(5))) == Ok(Int);
    assert Typecheck(inner) == Ok(Unit);
    assert Typecheck(e).Err?;
    GenerateSucceeds(e);
  }

  // ---------------------------------------------------------------------------
  // The operators and the built-in symbols

  /** The translation starts from a table holding the built-in symbols, and
      every operator the checker lets through is bound there with the
      signature the checker applies: two `Int`s to the node's type. */
  lemma CheckerAgreesWithBuiltins(left: Expr, op: string, right: Expr)
    requires Typecheck(BinaryOp(left, op, right)).Ok?
    ensures SymTab.AddBuiltinSymbols(SymTab.NewSymTab()).Ok?
    ensures SymTab.LookupVariableType(SymTab.AddBuiltinSymbols(SymTab.NewSymTab()).value, op)
         == Ok(FunctionType([Int, Int], Typecheck(BinaryOp(left, op, right)).value))
  {
    var t := Typecheck(BinaryOp(left, op, right)).value;
    var k: nat := if op == "+" then 4 else if op == "-" then 5 else if op == "*" then 6 else if op == "/" then 7 else 11;
    assert SymTab.BuiltinTable[k].0 == op && SymTab.BuiltinTable[k].2 == FunctionType([Int, Int], t);
    SymTab.BuiltinTypes(k);
  }
}
