/** Stack layout and lowering of IR to x86-64 assembly text
    (src/compiler/assembly_generator.py).

    Every IR variable gets an 8-byte slot below the frame pointer, in order
    of first appearance. Each instruction is lowered to a comment line and
    its assembly lines. The intrinsics table and the text of an instruction
    are defined outside this file; both are parameters here. The result is
    the list of lines the source joins with newlines. */
module AssemblyGenerator {

  import opened Wrappers
  import opened IR
  import opened Seqs
  import opened Decimal

  // ---------------------------------------------------------------------------
  // Collecting the IR variables

  /** Every IR variable in the fields of the instructions, field after field,
      repeats included. */
  function Occurrences(code: seq<Instruction>): seq<IRVar> {
    FlatMap(code, VarsOf)
  }

  /** The elements of `s`, each kept at its first appearance. */
  function Dedup(s: seq<IRVar>): (d: seq<IRVar>)
    decreases |s|
  {
    if |s| == 0 then []
    else
      var d := Dedup(s[..|s| - 1]);
      if s[|s| - 1] in d then d else d + [s[|s| - 1]]
  }

  /** The position of the first occurrence of `v` in `s`. */
  function FirstIndex(s: seq<IRVar>, v: IRVar): (k: nat)
    requires v in s
    ensures k < |s| && s[k] == v && v !in s[..k]
    decreases |s|
  {
    if s[0] == v then 0
    else
      var k := 1 + FirstIndex(s[1..], v);
      assert s[..k] == [s[0]] + s[1..][..k - 1];
      k
  }

  lemma FirstIndexUnique(s: seq<IRVar>, v: IRVar, k: nat)
    requires k < |s| && s[k] == v && v !in s[..k]
    ensures FirstIndex(s, v) == k
  {
  }

  /** Appending an element moves no first occurrence, and the element, when
      new, first occurs at the end. */
  lemma FirstIndexSnoc(p: seq<IRVar>, x: IRVar, v: IRVar)
    requires v in p || v == x
    ensures v in p ==> FirstIndex(p + [x], v) == FirstIndex(p, v)
    ensures v !in p ==> FirstIndex(p + [x], v) == |p|
  {
    if v in p {
      var k := FirstIndex(p, v);
      assert (p + [x])[..k] == p[..k];
      FirstIndexUnique(p + [x], v, k);
    } else {
      assert (p + [x])[..|p|] == p;
      FirstIndexUnique(p + [x], v, |p|);
    }
  }

  /** Listed in order of first appearance in `s`. */
  ghost predicate FirstAppearanceOrder(s: seq<IRVar>, d: seq<IRVar>)
    requires forall v :: v in d ==> v in s
  {
    forall i, j :: 0 <= i < j < |d| ==> FirstIndex(s, d[i]) < FirstIndex(s, d[j])
  }

  /** `Dedup` lists every element of `s` exactly once, in order of first appearance. */
  lemma {:induction false} DedupSpec(s: seq<IRVar>)
    ensures NoDuplicates(Dedup(s))
    ensures forall v :: v in Dedup(s) <==> v in s
    ensures FirstAppearanceOrder(s, Dedup(s))
    decreases |s|
  {
    if |s| > 0 {
      var p := s[..|s| - 1];
      var x := s[|s| - 1];
      assert s == p + [x];
      DedupSpec(p);
      var d := Dedup(p);
      forall v | v in d
        ensures FirstIndex(s, v) == FirstIndex(p, v)
      {
        FirstIndexSnoc(p, x, v);
      }
      if x !in d {
        FirstIndexSnoc(p, x, x);
        forall i, j | 0 <= i < j < |d + [x]|
          ensures FirstIndex(s, (d + [x])[i]) < FirstIndex(s, (d + [x])[j])
        {
          if j == |d| {
            assert (d + [x])[i] == d[i];
          } else {
            assert (d + [x])[i] == d[i] && (d + [x])[j] == d[j];
          }
        }
      }
    }
  }

  /** The variables of the code, each once, in order of first appearance. */
  function AllIrVariables(code: seq<Instruction>): seq<IRVar> {
    Dedup(Occurrences(code))
  }

  /** `Dedup` keeps exactly the elements of its input. */
  lemma {:induction false} DedupMembers(s: seq<IRVar>)
    ensures forall v :: v in Dedup(s) <==> v in s
    decreases |s|
  {
    if |s| > 0 {
      DedupMembers(s[..|s| - 1]);
      assert s == s[..|s| - 1] + [s[|s| - 1]];
    }
  }

  /** One more element is kept when it is new. */
  lemma DedupSnoc(p: seq<IRVar>, x: IRVar)
    ensures Dedup(p + [x]) == if x in p then Dedup(p) else Dedup(p) + [x]
  {
    assert (p + [x])[..|p|] == p;
    DedupMembers(p);
  }

  /** The inner loop: adds the variables of one instruction's fields. */
  method AddFields(vars: seq<IRVar>, seen: set<IRVar>, fields: seq<IRVar>, ghost before: seq<IRVar>)
    returns (vars': seq<IRVar>, seen': set<IRVar>)
    requires vars == Dedup(before)
    requires forall v :: v in seen <==> v in before
    ensures vars' == Dedup(before + fields)
    ensures forall v :: v in seen' <==> v in before + fields
  {
    vars', seen' := vars, seen;
    var k := 0;
    assert before + fields[..k] == before;
    while k < |fields|
      invariant 0 <= k <= |fields|
      invariant vars' == Dedup(before + fields[..k])
      invariant forall v :: v in seen' <==> v in before + fields[..k]
    {
      var v := fields[k];
      assert before + fields[..k + 1] == (before + fields[..k]) + [v];
      DedupSnoc(before + fields[..k], v);
      if v !in seen' {
        vars' := vars' + [v];
        seen' := seen' + {v};
      }
      k := k + 1;
    }
    assert fields[..k] == fields;
  }

  /** Walks the instructions and, inside each, its fields, keeping a variable
      the first time it is seen; a set answers "seen before?". */
  method GetAllIrVariables(code: seq<Instruction>) returns (vars: seq<IRVar>)
    ensures vars == AllIrVariables(code)
    ensures NoDuplicates(vars)
    ensures forall v :: v in vars <==> v in Occurrences(code)
    ensures FirstAppearanceOrder(Occurrences(code), vars)
  {
    vars := [];
    var seen: set<IRVar> := {};
    var i := 0;
    while i < |code|
      invariant 0 <= i <= |code|
      invariant vars == Dedup(Occurrences(code[..i]))
      invariant forall v :: v in seen <==> v in Occurrences(code[..i])
    {
      assert Occurrences(code[..i + 1]) == Occurrences(code[..i]) + VarsOf(code[i]) by {
        assert code[..i + 1] == code[..i] + [code[i]];
        FlatMapSnoc(code[..i], code[i], VarsOf);
      }
      vars, seen := AddFields(vars, seen, VarsOf(code[i]), Occurrences(code[..i]));
      i := i + 1;
    }
    assert code[..i] == code;
    DedupSpec(Occurrences(code));
  }

  /** `Dedup` leaves a duplicate-free sequence as it is. */
  lemma {:induction false} DedupOfDistinct(s: seq<IRVar>)
    requires NoDuplicates(s)
    ensures Dedup(s) == s
    decreases |s|
  {
    if |s| > 0 {
      var p := s[..|s| - 1];
      DedupOfDistinct(p);
      assert s[|s| - 1] !in p;
      assert p + [s[|s| - 1]] == s;
    }
  }

  // ---------------------------------------------------------------------------
  // Stack slots

  /** Where each variable lives, and the bytes of stack reserved so far. */
  datatype Locals = Locals(varToLocation: map<IRVar, string>, stackUsed: nat)

  /** The memory operand of the slot `offset` bytes below the frame pointer. */
  function SlotRef(offset: nat): string {
    "-" + NatToString(offset) + "(%rbp)"
  }

  /** The offset named by a slot operand, if the text is one. */
  function SlotOffset(ref: string): (r: Option<nat>)
    ensures r.Some? ==> |ref| > 7 && ref[0] == '-' && ref[|ref| - 6..] == "(%rbp)"
  {
    if |ref| > 7 && ref[0] == '-' && ref[|ref| - 6..] == "(%rbp)" then ParseNat(ref[1..|ref| - 6]) else None
  }

  lemma SlotOffsetOfSlotRef(offset: nat)
    ensures SlotOffset(SlotRef(offset)) == Some(offset)
  {
    var s := SlotRef(offset);
    assert s[0] == '-';
    assert s[1..|s| - 6] == NatToString(offset);
    assert s[|s| - 6..] == "(%rbp)";
    ParseNatRoundTrip(offset);
  }

  /** Different offsets name different slots. */
  lemma SlotRefInjective(a: nat, b: nat)
    ensures SlotRef(a) == SlotRef(b) ==> a == b
  {
    SlotOffsetOfSlotRef(a);
    SlotOffsetOfSlotRef(b);
  }

  /** One step of the constructor's loop: a variable seen before keeps its slot;
      a new one takes the next 8 bytes. */
  function AddLocal(l: Locals, v: IRVar): Locals {
    if v in l.varToLocation then l
    else Locals(l.varToLocation[v := SlotRef(l.stackUsed)], l.stackUsed + 8)
  }

  /** `Locals(variables)`: starts with 8 bytes used and visits the variables in order. */
  function NewLocals(vars: seq<IRVar>): (r: Locals)
    ensures 8 <= r.stackUsed <= 8 + 8 * |vars|
    decreases |vars|
  {
    if |vars| == 0 then Locals(map[], 8)
    else AddLocal(NewLocals(vars[..|vars| - 1]), vars[|vars| - 1])
  }

  /** The `i`-th distinct variable, in order of first appearance, lives at
      `-(8 + 8 i)(%rbp)`, and the stack used is 8 bytes more than the last slot. */
  lemma {:induction false} LocalsLayout(vars: seq<IRVar>)
    ensures forall v :: v in Dedup(vars) <==> v in vars
    ensures NewLocals(vars).varToLocation.Keys == set v | v in vars
    ensures NewLocals(vars).stackUsed == 8 + 8 * |Dedup(vars)|
    ensures forall i :: 0 <= i < |Dedup(vars)| ==>
              NewLocals(vars).varToLocation[Dedup(vars)[i]] == SlotRef(8 + 8 * i)
    decreases |vars|
  {
    DedupSpec(vars);
    if |vars| > 0 {
      var p := vars[..|vars| - 1];
      var x := vars[|vars| - 1];
      assert vars == p + [x];
      LocalsLayout(p);
      var d := Dedup(p);
      var l := NewLocals(p);
      if x !in d {
        forall i | 0 <= i < |d + [x]|
          ensures NewLocals(vars).varToLocation[(d + [x])[i]] == SlotRef(8 + 8 * i)
        {
          if i < |d| {
            assert (d + [x])[i] == d[i];
            assert d[i] != x;
          }
        }
      }
    }
  }

  /** The slot of one variable, read off the layout. */
  lemma LocalsSlotOf(vars: seq<IRVar>, v: IRVar) returns (i: nat)
    requires v in vars
    ensures i < |Dedup(vars)| && Dedup(vars)[i] == v
    ensures v in NewLocals(vars).varToLocation
    ensures NewLocals(vars).varToLocation[v] == SlotRef(8 + 8 * i)
    ensures NewLocals(vars).stackUsed == 8 + 8 * |Dedup(vars)|
  {
    LocalsLayout(vars);
    var d := Dedup(vars);
    assert v in d;
    i := FirstIndex(d, v);
    assert d[i] == v;
  }

  /** Two different variables never share a slot. */
  lemma LocalsDistinctSlots(vars: seq<IRVar>, a: IRVar, b: IRVar)
    requires a in vars && b in vars && a != b
    ensures a in NewLocals(vars).varToLocation && b in NewLocals(vars).varToLocation
    ensures NewLocals(vars).varToLocation[a] != NewLocals(vars).varToLocation[b]
  {
    var i := LocalsSlotOf(vars, a);
    var j := LocalsSlotOf(vars, b);
    SlotRefInjective(8 + 8 * i, 8 + 8 * j);
  }

  /** Every location is an 8-aligned slot inside the reserved stack space. */
  lemma LocalsWithinFrame(vars: seq<IRVar>, v: IRVar)
    requires v in vars
    ensures v in NewLocals(vars).varToLocation
    ensures var o := SlotOffset(NewLocals(vars).varToLocation[v]);
              o.Some? && 8 <= o.value < NewLocals(vars).stackUsed && o.value % 8 == 0
  {
    var i := LocalsSlotOf(vars, v);
    SlotOffsetOfSlotRef(8 + 8 * i);
    SlotArithmetic(i, |Dedup(vars)|);
  }

  lemma SlotArithmetic(i: nat, n: nat)
    requires i < n
    ensures 8 <= 8 + 8 * i < 8 + 8 * n && (8 + 8 * i) % 8 == 0
  {
  }

  /** `get_ref`: the location of a registered variable; any other lookup fails. */
  function GetRef(frame: Locals, v: IRVar): (r: Result<string, AsmError>)
    ensures r.Ok? ==> v in frame.varToLocation
    ensures r.Err? ==> r.error == UnknownVariable(v)
  {
    if v in frame.varToLocation then Ok(frame.varToLocation[v]) else Err(UnknownVariable(v))
  }

  /** Looking a variable up in the constructed frame gives the slot of its
      position in first-appearance order; a variable not listed is unknown. */
  lemma GetRefOfLayout(vars: seq<IRVar>, v: IRVar) returns (i: nat)
    ensures v in vars ==> i < |Dedup(vars)| && Dedup(vars)[i] == v && GetRef(NewLocals(vars), v) == Ok(SlotRef(8 + 8 * i))
    ensures v !in vars ==> GetRef(NewLocals(vars), v) == Err(UnknownVariable(v))
  {
    if v in vars {
      i := LocalsSlotOf(vars, v);
    } else {
      i := 0;
      LocalsLayout(vars);
    }
  }

  /** The locations of a list of variables, or the first unknown one. */
  function GetRefs(frame: Locals, vs: seq<IRVar>): (r: Result<seq<string>, AsmError>)
    ensures r.Ok? <==> forall v :: v in vs ==> v in frame.varToLocation
    ensures r.Ok? ==> |r.value| == |vs| && forall i :: 0 <= i < |vs| ==> r.value[i] == frame.varToLocation[vs[i]]
    ensures r.Err? ==> r.error.UnknownVariable? && r.error.v in vs && r.error.v !in frame.varToLocation
    decreases |vs|
  {
    if |vs| == 0 then Ok([])
    else
      var h :- GetRef(frame, vs[0]);
      var t :- GetRefs(frame, vs[1..]);
      assert forall v :: v in vs ==> v == vs[0] || v in vs[1..];
      Ok([h] + t)
  }

  // ---------------------------------------------------------------------------
  // Lowering

  datatype AsmError =
    | UnknownVariable(v: IRVar)
    | UnsupportedFunction(name: string)
    | UnsupportedArity(count: nat)
    | UnknownInstruction(insn: Instruction)

  /** An intrinsic writes the lines that compute an operator from the operands
      of its arguments into `%rax`. */
  type Intrinsics = map<string, seq<string> -> seq<string>>

  /** The lines one instruction becomes, after its comment line. */
  function Lower(frame: Locals, intrinsics: Intrinsics, insn: Instruction): (r: Result<seq<string>, AsmError>)
    ensures r.Ok? ==> Supported(intrinsics, insn) && |r.value| > 0
    ensures !Supported(intrinsics, insn) && !insn.Call? ==> r == Err(UnknownInstruction(insn))
    ensures r.Err? && r.error.UnknownVariable? ==> r.error.v in VarsOf(insn) && r.error.v !in frame.varToLocation
  {
    match insn
    case LabelInsn(here) => Ok([".L" + here.name + ":"])
    case LoadIntConst(value, dest) =>
      var d :- GetRef(frame, dest);
      Ok(["movq $" + LiteralText(value) + ", " + d])
    case Copy(source, dest) =>
      var s :- GetRef(frame, source);
      var d :- GetRef(frame, dest);
      Ok(["movq " + s + ", %rax", "movq %rax, " + d])
    case Call(fun, args, dest) =>
      if fun.name in intrinsics then
        var refs :- GetRefs(frame, args);
        var d :- GetRef(frame, dest);
        Ok(intrinsics[fun.name](refs) + ["movq %rax, " + d])
      else if fun.name != "print_int" then Err(UnsupportedFunction(fun.name))
      else if |args| != 1 then Err(UnsupportedArity(|args|))
      else
        var a :- GetRef(frame, args[0]);
        Ok(["movq " + a + ", %rdi", "call print_int"])
    case Jump(target) => Ok(["jmp .L" + target.name])
    case CondJump(cond, thenLabel, elseLabel) =>
      var c :- GetRef(frame, cond);
      Ok(["cmpq $0, " + c, "jne .L" + thenLabel.name, "jmp .L" + elseLabel.name])
    case LoadBoolConst(_, _) => Err(UnknownInstruction(insn))
  }

  /** The instructions the generator has a case for: no boolean constant, and
      a call only to an intrinsic or to `print_int` with one argument. */
  predicate Supported(intrinsics: Intrinsics, insn: Instruction) {
    && !insn.LoadBoolConst?
    && (insn.Call? ==> insn.fun.name in intrinsics || (insn.fun.name == "print_int" && |insn.args| == 1))
  }

  /** With every variable of the instruction in the frame, lowering fails
      exactly on the unsupported instructions, naming the reason. */
  lemma LowerSucceeds(frame: Locals, intrinsics: Intrinsics, insn: Instruction)
    requires forall v :: v in VarsOf(insn) ==> v in frame.varToLocation
    ensures Lower(frame, intrinsics, insn).Ok? <==> Supported(intrinsics, insn)
    ensures Lower(frame, intrinsics, insn).Err? ==> !Lower(frame, intrinsics, insn).error.UnknownVariable?
  {
    if insn.Call? {
      assert insn.dest in VarsOf(insn);
      assert forall v :: v in insn.args ==> v in VarsOf(insn);
      if |insn.args| == 1 {
        assert insn.args[0] in VarsOf(insn);
      }
    }
  }

  /** One comment line with the instruction's text, then its lines; stops at
      the first instruction that cannot be lowered. */
  function LowerAll(frame: Locals, intrinsics: Intrinsics, show: Instruction -> string, code: seq<Instruction>): (r: Result<seq<string>, AsmError>)
    ensures r.Ok? ==> |r.value| >= 2 * |code|
    ensures r.Ok? ==> forall i :: 0 <= i < |code| ==> Supported(intrinsics, code[i])
    decreases |code|
  {
    if |code| == 0 then Ok([])
    else
      var h :- Lower(frame, intrinsics, code[0]);
      var t :- LowerAll(frame, intrinsics, show, code[1..]);
      Ok(["#" + show(code[0])] + h + t)
  }

  /** Running the instructions one after the other: the lines of `a + b` are
      those of `a` then those of `b`, and the first failure wins. */
  lemma {:induction false} LowerAllConcat(frame: Locals, intrinsics: Intrinsics, show: Instruction -> string, a: seq<Instruction>, b: seq<Instruction>)
    ensures var ra := LowerAll(frame, intrinsics, show, a);
            var rb := LowerAll(frame, intrinsics, show, b);
            LowerAll(frame, intrinsics, show, a + b) ==
              if ra.Err? then ra else if rb.Err? then rb else Ok(ra.value + rb.value)
    decreases |a|
  {
    if |a| == 0 {
      assert a + b == b;
      var rb := LowerAll(frame, intrinsics, show, b);
      if rb.Ok? {
        assert [] + rb.value == rb.value;
      }
    } else {
      assert (a + b)[0] == a[0] && (a + b)[1..] == a[1..] + b;
      LowerAllConcat(frame, intrinsics, show, a[1..], b);
      var h := Lower(frame, intrinsics, a[0]);
      var ra := LowerAll(frame, intrinsics, show, a[1..]);
      var rb := LowerAll(frame, intrinsics, show, b);
      if h.Ok? && ra.Ok? && rb.Ok? {
        var c := ["#" + show(a[0])];
        assert c + h.value + (ra.value + rb.value) == (c + h.value + ra.value) + rb.value;
      }
    }
  }

  /** A single instruction gives its comment line followed by its lines. */
  lemma LowerAllSingle(frame: Locals, intrinsics: Intrinsics, show: Instruction -> string, insn: Instruction)
    ensures var r := Lower(frame, intrinsics, insn);
            LowerAll(frame, intrinsics, show, [insn]) ==
              if r.Err? then Err(r.error) else Ok(["#" + show(insn)] + r.value)
  {
    assert [insn][1..] == [];
    var r := Lower(frame, intrinsics, insn);
    if r.Ok? {
      assert ["#" + show(insn)] + r.value + [] == ["#" + show(insn)] + r.value;
    }
  }

  /** Lowering succeeds exactly when every instruction can be lowered, and a
      failure reports the first instruction that cannot. */
  lemma {:induction false} LowerAllSucceeds(frame: Locals, intrinsics: Intrinsics, show: Instruction -> string, code: seq<Instruction>)
    ensures LowerAll(frame, intrinsics, show, code).Ok? <==>
              forall i :: 0 <= i < |code| ==> Lower(frame, intrinsics, code[i]).Ok?
    ensures LowerAll(frame, intrinsics, show, code).Err? ==>
              exists i :: 0 <= i < |code| && Lower(frame, intrinsics, code[i]).Err?
                && LowerAll(frame, intrinsics, show, code).error == Lower(frame, intrinsics, code[i]).error
                && forall j :: 0 <= j < i ==> Lower(frame, intrinsics, code[j]).Ok?
    decreases |code|
  {
    if |code| > 0 {
      LowerAllSucceeds(frame, intrinsics, show, code[1..]);
      var r := LowerAll(frame, intrinsics, show, code);
      if Lower(frame, intrinsics, code[0]).Ok? && r.Err? {
        var k :| 0 <= k < |code[1..]| && Lower(frame, intrinsics, code[1..][k]).Err?
                 && LowerAll(frame, intrinsics, show, code[1..]).error == Lower(frame, intrinsics, code[1..][k]).error
                 && forall j :: 0 <= j < k ==> Lower(frame, intrinsics, code[1..][j]).Ok?;
        assert forall j :: 1 <= j < k + 1 ==> code[j] == code[1..][j - 1];
      }
      assert forall i :: 1 <= i < |code| ==> code[i] == code[1..][i - 1];
    }
  }

  // ---------------------------------------------------------------------------
  // The whole program

  function Header(): seq<string> {
    [".global main", ".type main, @function", ".extern print_int", ".section .text", "main:"]
  }

  /** Saves the caller's frame pointer, starts a frame and reserves `n` bytes. */
  function Prologue(n: nat): (r: seq<string>)
    ensures |r| == 3
    ensures EffectOf(r[0]) == [SaveFramePointer] && EffectOf(r[1]) == [SetFramePointer] && EffectOf(r[2]) == []
  {
    ["pushq %rbp", "movq %rsp, %rbp", " subq $" + NatToString(n) + ", %rsp"]
  }

  /** The prologue with the source's two misspellings: `pusbq` for `pushq`
      and `%r bp` for `%rbp`. */
  function PrologueAsWritten(n: nat): seq<string> {
    ["pusbq %rbp", "movq %rsp, %r bp", " subq $" + NatToString(n) + ", %rsp"]
  }

  /** Returns 0 after releasing the frame. */
  function Epilogue(): (r: seq<string>)
    ensures |r| == 5 && r[|r| - 2] == "ret"
    ensures EffectOf(r[0]) == [] && EffectOf(r[1]) == [ReleaseFrame] && EffectOf(r[2]) == [RestoreFramePointer]
  {
    ["movq $0, %rax", "movq %rbp, %rsp", "popq %rbp", "ret", ""]
  }

  /** `generate_assembly` with the prologue spelled correctly: the lines the
      source joins with newlines. */
  function GenerateAssembly(intrinsics: Intrinsics, show: Instruction -> string, code: seq<Instruction>): (r: Result<seq<string>, AsmError>)
    ensures r.Ok? ==> forall i :: 0 <= i < |code| ==> Supported(intrinsics, code[i])
    ensures r.Ok? ==> |r.value| >= |Header()| + 3 + 2 * |code| + 5
  {
    var frame := NewLocals(AllIrVariables(code));
    var body :- LowerAll(frame, intrinsics, show, code);
    Ok(Header() + Prologue(frame.stackUsed) + body + Epilogue())
  }

  /** `generate_assembly` as written, prologue typos included. */
  function GenerateAssemblyAsWritten(intrinsics: Intrinsics, show: Instruction -> string, code: seq<Instruction>): (r: Result<seq<string>, AsmError>)
    ensures r.Ok? ==> forall i :: 0 <= i < |code| ==> Supported(intrinsics, code[i])
    ensures r.Ok? ==> |r.value| >= |Header()| + 3 + 2 * |code| + 5
  {
    var frame := NewLocals(AllIrVariables(code));
    var body :- LowerAll(frame, intrinsics, show, code);
    Ok(Header() + PrologueAsWritten(frame.stackUsed) + body + Epilogue())
  }

  /** Every variable of the program has a slot in the frame the generator builds. */
  lemma EveryVariableHasSlot(code: seq<Instruction>, i: nat)
    requires i < |code|
    ensures forall v :: v in VarsOf(code[i]) ==> v in NewLocals(AllIrVariables(code)).varToLocation
  {
    LocalsLayout(AllIrVariables(code));
    DedupSpec(Occurrences(code));
    FlatMapIncludes(code, VarsOf, i);
  }

  /** Generation succeeds exactly when every instruction is supported; it never
      fails on a variable lookup. */
  lemma GenerateAssemblySucceeds(intrinsics: Intrinsics, show: Instruction -> string, code: seq<Instruction>)
    ensures GenerateAssembly(intrinsics, show, code).Ok? <==> forall i :: 0 <= i < |code| ==> Supported(intrinsics, code[i])
    ensures GenerateAssembly(intrinsics, show, code).Err? ==> !GenerateAssembly(intrinsics, show, code).error.UnknownVariable?
  {
    var frame := NewLocals(AllIrVariables(code));
    forall i | 0 <= i < |code|
      ensures Lower(frame, intrinsics, code[i]).Ok? <==> Supported(intrinsics, code[i])
      ensures Lower(frame, intrinsics, code[i]).Err? ==> !Lower(frame, intrinsics, code[i]).error.UnknownVariable?
    {
      EveryVariableHasSlot(code, i);
      LowerSucceeds(frame, intrinsics, code[i]);
    }
    LowerAllSucceeds(frame, intrinsics, show, code);
  }

  /** The output is the header, a prologue reserving 8 bytes more than one
      slot per distinct variable, the lowered instructions and the epilogue. */
  lemma GenerateAssemblyLayout(intrinsics: Intrinsics, show: Instruction -> string, code: seq<Instruction>)
    ensures var r := GenerateAssembly(intrinsics, show, code);
            r.Ok? ==> r.value == Header() + Prologue(8 + 8 * |AllIrVariables(code)|)
                                  + LowerAll(NewLocals(AllIrVariables(code)), intrinsics, show, code).value + Epilogue()
  {
    var vars := AllIrVariables(code);
    assert NewLocals(vars).stackUsed == 8 + 8 * |vars| by {
      assert NoDuplicates(vars) by {
        DedupSpec(Occurrences(code));
      }
      DedupOfDistinct(vars);
      LocalsLayout(vars);
    }
  }

  // ---------------------------------------------------------------------------
  // What the text does to control flow and to the frame

  /** The effect of an assembly line on the frame pointer or on control flow,
      read back from its text. */
  datatype Effect =
    | SaveFramePointer
    | SetFramePointer
    | ReleaseFrame
    | RestoreFramePointer
    | Return
    | JumpTo(target: string)
    | BranchTo(target: string)
    | LabelAt(name: string)

  predicate StartsWith(s: string, prefix: string) {
    |prefix| <= |s| && s[..|prefix|] == prefix
  }

  /** Recognises the frame instructions, `jmp`/`jne` to a `.L` label and a
      `.L` label definition; every other line has no such effect. */
  function EffectOf(line: string): seq<Effect> {
    if |line| == 0 then []
    else if line[0] == 'p' then
      if line == "pushq %rbp" then [SaveFramePointer]
      else if line == "popq %rbp" then [RestoreFramePointer]
      else []
    else if line[0] == 'm' then
      if line == "movq %rsp, %rbp" then [SetFramePointer]
      else if line == "movq %rbp, %rsp" then [ReleaseFrame]
      else []
    else if line == "ret" then [Return]
    else if StartsWith(line, "jmp .L") then [JumpTo(line[6..])]
    else if StartsWith(line, "jne .L") then [BranchTo(line[6..])]
    else if |line| >= 3 && StartsWith(line, ".L") && line[|line| - 1] == ':' then [LabelAt(line[2..|line| - 1])]
    else []
  }

  function Effects(lines: seq<string>): seq<Effect> {
    FlatMap(lines, EffectOf)
  }

  /** The control flow of an IR instruction: the label it defines, or where it
      jumps, the conditional target first. */
  function ControlOf(insn: Instruction): seq<Effect> {
    match insn
    case LabelInsn(here) => [LabelAt(here.name)]
    case Jump(target) => [JumpTo(target.name)]
    case CondJump(_, thenLabel, elseLabel) => [BranchTo(thenLabel.name), JumpTo(elseLabel.name)]
    case _ => []
  }

  /** The intrinsics emit only arithmetic: no line of theirs touches the frame
      pointer, jumps or defines a label. */
  ghost predicate QuietIntrinsics(intrinsics: Intrinsics) {
    forall name, refs, line :: name in intrinsics && line in intrinsics[name](refs) ==> EffectOf(line) == []
  }

  lemma EffectsCons(x: string, rest: seq<string>)
    ensures Effects([x] + rest) == EffectOf(x) + Effects(rest)
  {
    assert ([x] + rest)[0] == x && ([x] + rest)[1..] == rest;
  }

  lemma {:induction false} QuietLines(lines: seq<string>)
    requires forall line :: line in lines ==> EffectOf(line) == []
    ensures Effects(lines) == []
    decreases |lines|
  {
    if |lines| > 0 {
      assert lines[0] in lines;
      QuietLines(lines[1..]);
    }
  }

  /** A line that starts with none of `j`, `.`, `p`, `r` and is not one of the
      two frame moves has no effect. */
  lemma QuietLine(line: string)
    requires |line| > 0 && line[0] != 'j' && line[0] != '.' && line[0] != 'p' && line[0] != 'r'
    requires line != "movq %rsp, %rbp" && line != "movq %rbp, %rsp"
    ensures EffectOf(line) == []
  {
  }

  /** Moving into `%rax`, out of `%rax` and into `%rdi` never reads as a frame move. */
  lemma QuietMoves(x: string)
    ensures EffectOf("movq " + x + ", %rax") == []
    ensures EffectOf("movq %rax, " + x) == []
    ensures EffectOf("movq " + x + ", %rdi") == []
    ensures EffectOf("movq $" + x) == []
    ensures EffectOf("cmpq $0, " + x) == []
    ensures EffectOf("#" + x) == []
  {
    var a := "movq " + x + ", %rax";
    assert a[|a| - 1] == 'x' && a[0] == 'm';
    QuietLine(a);
    var b := "movq %rax, " + x;
    assert b[7] == 'a' && b[0] == 'm';
    QuietLine(b);
    var c := "movq " + x + ", %rdi";
    assert c[|c| - 1] == 'i' && c[0] == 'm';
    QuietLine(c);
    var d := "movq $" + x;
    assert d[5] == '$' && d[0] == 'm';
    QuietLine(d);
    var e := "cmpq $0, " + x;
    assert e[0] == 'c';
    QuietLine(e);
    var f := "#" + x;
    assert f[0] == '#';
    QuietLine(f);
  }

  lemma LabelLineEffects(name: string)
    ensures Effects([".L" + name + ":"]) == [LabelAt(name)]
  {
    var l := ".L" + name + ":";
    assert l[..2] == ".L" && l[|l| - 1] == ':' && l[2..|l| - 1] == name;
    assert l[0] == '.';
    FlatMapSingle(l, EffectOf);
  }

  lemma JumpLineEffects(name: string)
    ensures Effects(["jmp .L" + name]) == [JumpTo(name)]
  {
    var j := "jmp .L" + name;
    assert j[0] == 'j' && j[..6] == "jmp .L" && j[6..] == name;
    FlatMapSingle(j, EffectOf);
  }

  lemma BranchLineEffects(name: string)
    ensures Effects(["jne .L" + name]) == [BranchTo(name)]
  {
    var j := "jne .L" + name;
    assert j[0] == 'j' && j[..6] == "jne .L" && j[6..] == name;
    assert j[..6] != "jmp .L" by {
      assert j[..6][2] == 'e';
    }
    FlatMapSingle(j, EffectOf);
  }

  lemma CondJumpLinesEffects(c: string, t: string, e: string)
    ensures Effects(["cmpq $0, " + c, "jne .L" + t, "jmp .L" + e]) == [BranchTo(t), JumpTo(e)]
  {
    var x := "cmpq $0, " + c;
    var y := "jne .L" + t;
    var z := "jmp .L" + e;
    QuietMoves(c);
    assert [x, y, z] == [x] + ([y] + [z]);
    EffectsCons(x, [y] + [z]);
    EffectsCons(y, [z]);
    BranchLineEffects(t);
    FlatMapSingle(y, EffectOf);
    JumpLineEffects(e);
  }

  lemma LoadLineEffects(value: string, d: string)
    ensures Effects(["movq $" + value + ", " + d]) == []
  {
    assert "movq $" + value + ", " + d == "movq $" + (value + ", " + d);
    QuietMoves(value + ", " + d);
    FlatMapSingle("movq $" + value + ", " + d, EffectOf);
  }

  lemma CopyLinesEffects(src: string, d: string)
    ensures Effects(["movq " + src + ", %rax", "movq %rax, " + d]) == []
  {
    QuietMoves(src);
    QuietMoves(d);
    FlatMapPair("movq " + src + ", %rax", "movq %rax, " + d, EffectOf);
  }

  lemma PrintLinesEffects(a: string)
    ensures Effects(["movq " + a + ", %rdi", "call print_int"]) == []
  {
    QuietMoves(a);
    QuietLine("call print_int");
    FlatMapPair("movq " + a + ", %rdi", "call print_int", EffectOf);
  }

  lemma IntrinsicLinesEffects(body: seq<string>, d: string)
    requires forall line :: line in body ==> EffectOf(line) == []
    ensures Effects(body + ["movq %rax, " + d]) == []
  {
    QuietMoves(d);
    QuietLines(body + ["movq %rax, " + d]);
  }

  /** Lowering keeps exactly the control flow of the instruction: its label,
      or its jump targets in order. */
  lemma LowerEffects(frame: Locals, intrinsics: Intrinsics, show: Instruction -> string, insn: Instruction)
    requires Lower(frame, intrinsics, insn).Ok?
    requires QuietIntrinsics(intrinsics)
    ensures Effects(["#" + show(insn)] + Lower(frame, intrinsics, insn).value) == ControlOf(insn)
  {
    var lines := Lower(frame, intrinsics, insn).value;
    EffectsCons("#" + show(insn), lines);
    QuietMoves(show(insn));
    assert Effects(lines) == ControlOf(insn) by {
      match insn
      case LabelInsn(here) =>
        LabelLineEffects(here.name);
      case LoadIntConst(value, dest) =>
        LoadLineEffects(LiteralText(value), GetRef(frame, dest).value);
      case Copy(source, dest) =>
        CopyLinesEffects(GetRef(frame, source).value, GetRef(frame, dest).value);
      case Call(fun, args, dest) =>
        if fun.name in intrinsics {
          var refs := GetRefs(frame, args).value;
          assert forall line :: line in intrinsics[fun.name](refs) ==> EffectOf(line) == [];
          IntrinsicLinesEffects(intrinsics[fun.name](refs), GetRef(frame, dest).value);
        } else {
          PrintLinesEffects(GetRef(frame, args[0]).value);
        }
      case Jump(target) =>
        JumpLineEffects(target.name);
      case CondJump(cond, thenLabel, elseLabel) =>
        CondJumpLinesEffects(GetRef(frame, cond).value, thenLabel.name, elseLabel.name);
      case LoadBoolConst(_, _) =>
    }
  }

  /** The lowered body carries the control flow of the IR program, instruction
      by instruction. */
  lemma {:induction false} LowerAllEffects(frame: Locals, intrinsics: Intrinsics, show: Instruction -> string, code: seq<Instruction>)
    requires LowerAll(frame, intrinsics, show, code).Ok?
    requires QuietIntrinsics(intrinsics)
    ensures Effects(LowerAll(frame, intrinsics, show, code).value) == FlatMap(code, ControlOf)
    decreases |code|
  {
    if |code| > 0 {
      var head := ["#" + show(code[0])] + Lower(frame, intrinsics, code[0]).value;
      var tail := LowerAll(frame, intrinsics, show, code[1..]).value;
      LowerAllEffects(frame, intrinsics, show, code[1..]);
      LowerEffects(frame, intrinsics, show, code[0]);
      FlatMapConcat(head, tail, EffectOf);
    }
  }

  lemma HeaderEffects()
    ensures Effects(Header()) == []
  {
    QuietLines(Header());
  }

  lemma PrologueEffects(n: nat)
    ensures Effects(Prologue(n)) == [SaveFramePointer, SetFramePointer]
    ensures Effects(PrologueAsWritten(n)) == []
  {
    var sub := " subq $" + NatToString(n) + ", %rsp";
    assert sub[0] == ' ';
    QuietLine(sub);
    assert Prologue(n) == ["pushq %rbp"] + ["movq %rsp, %rbp", sub];
    EffectsCons("pushq %rbp", ["movq %rsp, %rbp", sub]);
    assert ["movq %rsp, %rbp", sub] == ["movq %rsp, %rbp"] + [sub];
    EffectsCons("movq %rsp, %rbp", [sub]);
    FlatMapSingle(sub, EffectOf);
    QuietLines(PrologueAsWritten(n));
  }

  lemma EpilogueEffects()
    ensures Effects(Epilogue()) == [ReleaseFrame, RestoreFramePointer, Return]
  {
    var e := Epilogue();
    assert e == ["movq $0, %rax"] + (["movq %rbp, %rsp"] + (["popq %rbp"] + (["ret"] + [""])));
    EffectsCons("movq $0, %rax", ["movq %rbp, %rsp"] + (["popq %rbp"] + (["ret"] + [""])));
    EffectsCons("movq %rbp, %rsp", ["popq %rbp"] + (["ret"] + [""]));
    EffectsCons("popq %rbp", ["ret"] + [""]);
    EffectsCons("ret", [""]);
    FlatMapSingle("", EffectOf);
  }

  lemma ProgramEffects(prologue: seq<string>, body: seq<string>)
    ensures Effects(Header() + prologue + body + Epilogue())
            == Effects(prologue) + Effects(body) + [ReleaseFrame, RestoreFramePointer, Return]
  {
    FlatMapConcat(Header() + prologue + body, Epilogue(), EffectOf);
    FlatMapConcat3(Header(), prologue, body, EffectOf);
    HeaderEffects();
    EpilogueEffects();
  }

  /** The generated program saves and sets the frame pointer, then follows the
      IR's labels and jumps in order, then releases the frame, restores the
      frame pointer and returns. */
  lemma GenerateAssemblyEffects(intrinsics: Intrinsics, show: Instruction -> string, code: seq<Instruction>)
    requires QuietIntrinsics(intrinsics)
    ensures var r := GenerateAssembly(intrinsics, show, code);
            r.Ok? ==> Effects(r.value) == [SaveFramePointer, SetFramePointer] + FlatMap(code, ControlOf)
                                           + [ReleaseFrame, RestoreFramePointer, Return]
  {
    var frame := NewLocals(AllIrVariables(code));
    var body := LowerAll(frame, intrinsics, show, code);
    if body.Ok? {
      LowerAllEffects(frame, intrinsics, show, code);
      PrologueEffects(frame.stackUsed);
      ProgramEffects(Prologue(frame.stackUsed), body.value);
    }
  }

  /** No IR instruction touches the frame pointer. */
  lemma ControlKeepsFrame(code: seq<Instruction>)
    ensures SaveFramePointer !in FlatMap(code, ControlOf)
  {
    if SaveFramePointer in FlatMap(code, ControlOf) {
      FlatMapMember(code, ControlOf, SaveFramePointer);
    }
  }

  /** Under `EffectOf`, the two misspelled prologue lines have no effect, so
      the epilogue's restore of the frame pointer has no matching save. An
      assembler rejects those lines, so this is a statement about the listing,
      not about a run. */
  lemma AsWrittenPopsUnsavedFrame(intrinsics: Intrinsics, show: Instruction -> string, code: seq<Instruction>)
    requires QuietIntrinsics(intrinsics)
    ensures var r := GenerateAssemblyAsWritten(intrinsics, show, code);
            r.Ok? ==> && Effects(r.value) == FlatMap(code, ControlOf) + [ReleaseFrame, RestoreFramePointer, Return]
                      && SaveFramePointer !in Effects(r.value)
                      && RestoreFramePointer in Effects(r.value)
  {
    var frame := NewLocals(AllIrVariables(code));
    var body := LowerAll(frame, intrinsics, show, code);
    if body.Ok? {
      var lines := Header() + PrologueAsWritten(frame.stackUsed) + body.value + Epilogue();
      assert GenerateAssemblyAsWritten(intrinsics, show, code) == Ok(lines);
      var control := FlatMap(code, ControlOf);
      var tail := [ReleaseFrame, RestoreFramePointer, Return];
      assert Effects(lines) == control + tail by {
        LowerAllEffects(frame, intrinsics, show, code);
        PrologueEffects(frame.stackUsed);
        ProgramEffects(PrologueAsWritten(frame.stackUsed), body.value);
        assert [] + control + tail == control + tail;
      }
      assert SaveFramePointer !in control + tail by {
        ControlKeepsFrame(code);
      }
      assert tail[1] == RestoreFramePointer;
    }
  }

  /** The two versions succeed on the same programs and differ only in the
      first two prologue lines. */
  lemma AsWrittenDiffersOnlyInPrologue(intrinsics: Intrinsics, show: Instruction -> string, code: seq<Instruction>)
    ensures var r := GenerateAssembly(intrinsics, show, code);
            var w := GenerateAssemblyAsWritten(intrinsics, show, code);
            && (r.Ok? <==> w.Ok?)
            && (r.Ok? ==> && |r.value| == |w.value|
                          && r.value[5] == "pushq %rbp" && w.value[5] == "pusbq %rbp"
                          && r.value[6] == "movq %rsp, %rbp" && w.value[6] == "movq %rsp, %r bp"
                          && forall i :: 0 <= i < |r.value| && i != 5 && i != 6 ==> r.value[i] == w.value[i])
  {
  }
}
