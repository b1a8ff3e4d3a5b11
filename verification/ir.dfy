/** The linear intermediate representation: IR variables, labels and the
    instruction variants, with the fields in the order the instruction
    classes declare them (the order `dataclasses.fields` visits them).
    The source has two IR modules: the generator builds instructions from
    `src.compiler.ir`, while the block splitter and the assembly generator
    test against `src.model.ir`. Neither module is part of this model. It
    assumes the two define the same classes, so that the splitter's and the
    assembly generator's `isinstance` tests recognise generated instructions;
    the shapes are the ones the generator, its tests and the assembly
    generator use. */
module IR {

  import opened Wrappers
  import opened Ast
  import opened Decimal

  datatype IRVar = IRVar(name: string)

  datatype Label = Label(name: string)

  datatype Instruction =
    | LabelInsn(here: Label)
    | LoadIntConst(value: LiteralValue, dest: IRVar)
    | LoadBoolConst(b: bool, dest: IRVar)
    | Copy(source: IRVar, dest: IRVar)
    | Call(fun: IRVar, args: seq<IRVar>, dest: IRVar)
    | Jump(target: Label)
    | CondJump(cond: IRVar, thenLabel: Label, elseLabel: Label)

  /** The IR variables held by one instruction, field by field and, inside the
      argument list of a call, element by element. */
  function VarsOf(insn: Instruction): (vs: seq<IRVar>)
    ensures insn.LoadIntConst? || insn.LoadBoolConst? ==> vs == [insn.dest]
    ensures insn.Copy? ==> vs == [insn.source, insn.dest]
    ensures insn.Call? ==> vs == [insn.fun] + insn.args + [insn.dest]
    ensures insn.CondJump? ==> vs == [insn.cond]
    ensures insn.LabelInsn? || insn.Jump? ==> vs == []
  {
    match insn
    case LabelInsn(_) => []
    case LoadIntConst(_, dest) => [dest]
    case LoadBoolConst(_, dest) => [dest]
    case Copy(source, dest) => [source, dest]
    case Call(fun, args, dest) => [fun] + args + [dest]
    case Jump(_) => []
    case CondJump(cond, _, _) => [cond]
  }

  /** Labels a jump instruction may transfer control to, then-target first. */
  function Targets(insn: Instruction): (ls: seq<Label>)
    ensures |ls| <= 2
    ensures ls != [] <==> insn.Jump? || insn.CondJump?
  {
    match insn
    case Jump(l) => [l]
    case CondJump(_, t, e) => [t, e]
    case _ => []
  }

  predicate IsJump(insn: Instruction) {
    insn.Jump? || insn.CondJump?
  }

  /** Python's `str` of a literal value: `True`/`False` for booleans, `None` for none. */
  function LiteralText(v: LiteralValue): (s: string)
    ensures v.IntLit? ==> s == IntToString(v.n)
  {
    match v
    case IntLit(n) => IntToString(n)
    case BoolLit(b) => if b then "True" else "False"
    case NoneLit => "None"
  }

  /** The `n`-th name with the given prefix (`x1`, `L3`, ...). */
  function Numbered(prefix: string, n: nat): (s: string)
    ensures |s| > |prefix| && s[..|prefix|] == prefix
  {
    prefix + NatToString(n)
  }

  /** The number in a name made by `Numbered(prefix, _)`, read back. */
  function NumberOf(prefix: string, s: string): (r: Option<nat>)
    ensures r.Some? ==> |s| > |prefix| && s[..|prefix|] == prefix
  {
    if |s| > |prefix| && s[..|prefix|] == prefix then ParseNat(s[|prefix|..]) else None
  }

  lemma NumberOfNumbered(prefix: string, n: nat)
    ensures NumberOf(prefix, Numbered(prefix, n)) == Some(n)
  {
    var s := Numbered(prefix, n);
    assert s[|prefix|..] == NatToString(n);
    ParseNatRoundTrip(n);
  }
}
