/** The stages run one after another on one program, as the analysis and
    assembly tests do: `if 1 < 2 then 3 else 4` is translated to IR, split
    into basic blocks and connected into a flow graph, and lowered to
    assembly. */
module Pipeline {

  import opened Wrappers
  import opened Ast
  import opened IR
  import IRGenerator
  import AnaOpt
  import AssemblyGenerator
  import Seqs

  /** The IR of `if 1 < 2 then 3 else 4`: `x<n>` and `L<n>` numbered by the
      generator's counters. */
  function IfElseProgram(): seq<Instruction> {
    IfElseBody() + [Call(IRVar("print_int"), [IRGenerator.XVar(5)], IRGenerator.XVar(7))]
  }

  /** The tree's own code, before the result is printed. */
  function IfElseBody(): seq<Instruction> {
    [ LoadIntConst(IntLit(1), IRGenerator.XVar(1)),
      LoadIntConst(IntLit(2), IRGenerator.XVar(2)),
      Call(IRVar("<"), [IRGenerator.XVar(1), IRGenerator.XVar(2)], IRGenerator.XVar(3)),
      CondJump(IRGenerator.XVar(3), IRGenerator.LabelNo(1), IRGenerator.LabelNo(2)),
      LabelInsn(IRGenerator.LabelNo(1)),
      LoadIntConst(IntLit(3), IRGenerator.XVar(4)),
      Copy(IRGenerator.XVar(4), IRGenerator.XVar(5)),
      Jump(IRGenerator.LabelNo(3)),
      LabelInsn(IRGenerator.LabelNo(2)),
      LoadIntConst(IntLit(4), IRGenerator.XVar(6)),
      Copy(IRGenerator.XVar(6), IRGenerator.XVar(5)),
      LabelInsn(IRGenerator.LabelNo(3)) ]
  }

  lemma GenerateIfElseProgram(e: Expr)
    requires e == IfExpression(BinaryOp(Lit(1), "<", Lit(2)), Lit(3), Some(Lit(4)))
    ensures IRGenerator.Generate(e) == Ok(IfElseProgram())
  {
    IRGenerator.VisitIfExample(e);
    IRGenerator.GenerateIfExample(e);
    assert IRGenerator.Visit(e, IRGenerator.InitialCounters()).value.code == IfElseBody();
  }

  function Cond(): seq<Instruction> {
    IfElseBody()[..3]
  }

  function ThenCode(): seq<Instruction> {
    [LoadIntConst(IntLit(3), IRGenerator.XVar(4)), Copy(IRGenerator.XVar(4), IRGenerator.XVar(5))]
  }

  function ElseCode(): seq<Instruction> {
    [LoadIntConst(IntLit(4), IRGenerator.XVar(6)), Copy(IRGenerator.XVar(6), IRGenerator.XVar(5))]
  }

  function After(): seq<Instruction> {
    [Call(IRVar("print_int"), [IRGenerator.XVar(5)], IRGenerator.XVar(7))]
  }

  /** The program in the shape the block splitter's layout lemma takes. */
  lemma IfElsePieces()
    ensures IfElseProgram() == Cond() + [CondJump(IRGenerator.XVar(3), IRGenerator.LabelNo(1), IRGenerator.LabelNo(2)), LabelInsn(IRGenerator.LabelNo(1))]
                               + ThenCode() + [Jump(IRGenerator.LabelNo(3)), LabelInsn(IRGenerator.LabelNo(2))]
                               + ElseCode() + [LabelInsn(IRGenerator.LabelNo(3))] + After()
  {
  }

  lemma PiecesStraight()
    ensures AnaOpt.Straight(Cond()) && AnaOpt.Straight(ThenCode()) && AnaOpt.Straight(ElseCode()) && AnaOpt.Straight(After())
  {
  }

  /** The splitter cuts the program at its jumps and labels. */
  lemma SplitIfElseProgram()
    ensures AnaOpt.SplitIntoBasicBlocks(IfElseProgram())
            == [AnaOpt.Block(None, Cond() + [CondJump(IRGenerator.XVar(3), IRGenerator.LabelNo(1), IRGenerator.LabelNo(2))]),
                AnaOpt.Block(Some(IRGenerator.LabelNo(1).name), ThenCode() + [Jump(IRGenerator.LabelNo(3))]),
                AnaOpt.Block(Some(IRGenerator.LabelNo(2).name), ElseCode()),
                AnaOpt.Block(Some(IRGenerator.LabelNo(3).name), After())]
  {
    var l1, l2, l3 := IRGenerator.LabelNo(1), IRGenerator.LabelNo(2), IRGenerator.LabelNo(3);
    PiecesStraight();
    IfElsePieces();
    AnaOpt.SplitIfElseLayout(Cond(), CondJump(IRGenerator.XVar(3), l1, l2), l1, ThenCode(), Jump(l3), l2, ElseCode(), l3, After());
  }

  /** The program splits into four blocks, the first unlabelled and ending in
      the conditional jump, and the flow graph branches from it to `L1` and
      `L2`, both of which continue at `L3`. */
  lemma IfElseProgramFlowgraph()
    ensures var blocks := AnaOpt.SplitIntoBasicBlocks(IfElseProgram());
            && |blocks| == 4
            && blocks[0].labelName == None
            && AnaOpt.Last(blocks[0].instructions).CondJump?
            && AnaOpt.BuildFlowgraph(blocks).Ok?
            && AnaOpt.BuildFlowgraph(blocks).value.edges
               == map[None := [Some("L1"), Some("L2")], Some("L1") := [Some("L3")],
                      Some("L2") := [Some("L3")], Some("L3") := []]
  {
    var l1, l2, l3 := IRGenerator.LabelNo(1), IRGenerator.LabelNo(2), IRGenerator.LabelNo(3);
    IRGenerator.SmallNames();
    var blocks := AnaOpt.SplitIntoBasicBlocks(IfElseProgram());
    var cj := CondJump(IRGenerator.XVar(3), l1, l2);
    SplitIfElseProgram();
    PiecesStraight();
    assert AnaOpt.Last(blocks[0].instructions) == cj;
    AnaOpt.IfElseFlowgraph(blocks, Cond(), IRGenerator.XVar(3), l1, ThenCode(), l2, ElseCode(), l3, After());
  }

  /** Straight-line code has no control flow of its own. */
  lemma {:induction false} StraightControl(s: seq<Instruction>)
    requires AnaOpt.Straight(s)
    ensures Seqs.FlatMap(s, AssemblyGenerator.ControlOf) == []
    decreases |s|
  {
    if |s| > 0 {
      assert AnaOpt.Straight(s[1..]) by {
        assert forall i :: 0 <= i < |s[1..]| ==> s[1..][i] == s[i + 1];
      }
      StraightControl(s[1..]);
    }
  }

  /** The control flow of an if-then-else laid out by the generator: the
      branch, the then-label, the jump to the end, the else-label and the end
      label, in that order. */
  lemma IfElseLayoutControl(cond: seq<Instruction>, c: IRVar, t: Label, thenCode: seq<Instruction>, e: Label,
                            elseCode: seq<Instruction>, end: Label, after: seq<Instruction>)
    requires AnaOpt.Straight(cond) && AnaOpt.Straight(thenCode) && AnaOpt.Straight(elseCode) && AnaOpt.Straight(after)
    ensures Seqs.FlatMap(cond + [CondJump(c, t, e), LabelInsn(t)] + thenCode + [Jump(end), LabelInsn(e)]
                         + elseCode + [LabelInsn(end)] + after, AssemblyGenerator.ControlOf)
            == [AssemblyGenerator.BranchTo(t.name), AssemblyGenerator.JumpTo(e.name), AssemblyGenerator.LabelAt(t.name),
                AssemblyGenerator.JumpTo(end.name), AssemblyGenerator.LabelAt(e.name), AssemblyGenerator.LabelAt(end.name)]
  {
    var f := AssemblyGenerator.ControlOf;
    var p2 := [CondJump(c, t, e), LabelInsn(t)];
    var p4 := [Jump(end), LabelInsn(e)];
    var p6 := [LabelInsn(end)];
    assert Seqs.FlatMap(p2, f) == [AssemblyGenerator.BranchTo(t.name), AssemblyGenerator.JumpTo(e.name), AssemblyGenerator.LabelAt(t.name)] by {
      Seqs.FlatMapPair(p2[0], p2[1], f);
    }
    assert Seqs.FlatMap(p4, f) == [AssemblyGenerator.JumpTo(end.name), AssemblyGenerator.LabelAt(e.name)] by {
      Seqs.FlatMapPair(p4[0], p4[1], f);
    }
    assert Seqs.FlatMap(p6, f) == [AssemblyGenerator.LabelAt(end.name)] by {
      Seqs.FlatMapSingle(p6[0], f);
    }
    StraightControl(cond);
    StraightControl(thenCode);
    StraightControl(elseCode);
    StraightControl(after);
    Seqs.FlatMapAroundQuiet(cond, p2, thenCode, p4, elseCode, p6, after, f,
                            AssemblyGenerator.BranchTo(t.name), AssemblyGenerator.JumpTo(e.name), AssemblyGenerator.LabelAt(t.name),
                            AssemblyGenerator.JumpTo(end.name), AssemblyGenerator.LabelAt(e.name), AssemblyGenerator.LabelAt(end.name));
  }

  /** The IR's own control flow, in program order. */
  lemma IfElseProgramControl()
    ensures Seqs.FlatMap(IfElseProgram(), AssemblyGenerator.ControlOf)
            == [AssemblyGenerator.BranchTo("L1"), AssemblyGenerator.JumpTo("L2"), AssemblyGenerator.LabelAt("L1"),
                AssemblyGenerator.JumpTo("L3"), AssemblyGenerator.LabelAt("L2"), AssemblyGenerator.LabelAt("L3")]
  {
    assert IRGenerator.LabelNo(1) == Label("L1") && IRGenerator.LabelNo(2) == Label("L2") && IRGenerator.LabelNo(3) == Label("L3") by {
      IRGenerator.SmallNames();
    }
    PiecesStraight();
    IfElsePieces();
    IfElseLayoutControl(Cond(), IRGenerator.XVar(3), IRGenerator.LabelNo(1), ThenCode(), IRGenerator.LabelNo(2),
                        ElseCode(), IRGenerator.LabelNo(3), After());
  }

  /** Lowered with an intrinsic for `<`, the program starts its frame, follows
      the IR's branches and labels in order, and returns. */
  lemma IfElseProgramAssembly(intrinsics: AssemblyGenerator.Intrinsics, show: Instruction -> string)
    requires "<" in intrinsics && AssemblyGenerator.QuietIntrinsics(intrinsics)
    ensures var r := AssemblyGenerator.GenerateAssembly(intrinsics, show, IfElseProgram());
            && r.Ok?
            && AssemblyGenerator.Effects(r.value)
               == [AssemblyGenerator.SaveFramePointer, AssemblyGenerator.SetFramePointer,
                   AssemblyGenerator.BranchTo("L1"), AssemblyGenerator.JumpTo("L2"),
                   AssemblyGenerator.LabelAt("L1"), AssemblyGenerator.JumpTo("L3"),
                   AssemblyGenerator.LabelAt("L2"), AssemblyGenerator.LabelAt("L3"),
                   AssemblyGenerator.ReleaseFrame, AssemblyGenerator.RestoreFramePointer, AssemblyGenerator.Return]
  {
    var r := AssemblyGenerator.GenerateAssembly(intrinsics, show, IfElseProgram());
    assert r.Ok? && AssemblyGenerator.Effects(r.value)
               == [AssemblyGenerator.SaveFramePointer, AssemblyGenerator.SetFramePointer]
                  + Seqs.FlatMap(IfElseProgram(), AssemblyGenerator.ControlOf)
                  + [AssemblyGenerator.ReleaseFrame, AssemblyGenerator.RestoreFramePointer, AssemblyGenerator.Return] by {
      SupportedProgram(intrinsics);
      LowerSupported(intrinsics, show, IfElseProgram());
    }
    IfElseProgramControl();
    FramedControl(AssemblyGenerator.Effects(r.value), Seqs.FlatMap(IfElseProgram(), AssemblyGenerator.ControlOf));
  }

  lemma FramedControl(x: seq<AssemblyGenerator.Effect>, control: seq<AssemblyGenerator.Effect>)
    requires x == [AssemblyGenerator.SaveFramePointer, AssemblyGenerator.SetFramePointer] + control
                  + [AssemblyGenerator.ReleaseFrame, AssemblyGenerator.RestoreFramePointer, AssemblyGenerator.Return]
    requires control == [AssemblyGenerator.BranchTo("L1"), AssemblyGenerator.JumpTo("L2"), AssemblyGenerator.LabelAt("L1"),
                         AssemblyGenerator.JumpTo("L3"), AssemblyGenerator.LabelAt("L2"), AssemblyGenerator.LabelAt("L3")]
    ensures x == [AssemblyGenerator.SaveFramePointer, AssemblyGenerator.SetFramePointer,
                  AssemblyGenerator.BranchTo("L1"), AssemblyGenerator.JumpTo("L2"),
                  AssemblyGenerator.LabelAt("L1"), AssemblyGenerator.JumpTo("L3"),
                  AssemblyGenerator.LabelAt("L2"), AssemblyGenerator.LabelAt("L3"),
                  AssemblyGenerator.ReleaseFrame, AssemblyGenerator.RestoreFramePointer, AssemblyGenerator.Return]
  {
  }

  lemma SupportedProgram(intrinsics: AssemblyGenerator.Intrinsics)
    requires "<" in intrinsics
    ensures forall i :: 0 <= i < |IfElseProgram()| ==> AssemblyGenerator.Supported(intrinsics, IfElseProgram()[i])
  {
  }

  /** A supported program is lowered, and its assembly follows its control flow
      inside the frame set-up and tear-down. */
  lemma LowerSupported(intrinsics: AssemblyGenerator.Intrinsics, show: Instruction -> string, code: seq<Instruction>)
    requires forall i :: 0 <= i < |code| ==> AssemblyGenerator.Supported(intrinsics, code[i])
    requires AssemblyGenerator.QuietIntrinsics(intrinsics)
    ensures var r := AssemblyGenerator.GenerateAssembly(intrinsics, show, code);
            && r.Ok?
            && AssemblyGenerator.Effects(r.value)
               == [AssemblyGenerator.SaveFramePointer, AssemblyGenerator.SetFramePointer]
                  + Seqs.FlatMap(code, AssemblyGenerator.ControlOf)
                  + [AssemblyGenerator.ReleaseFrame, AssemblyGenerator.RestoreFramePointer, AssemblyGenerator.Return]
  {
    AssemblyGenerator.GenerateAssemblySucceeds(intrinsics, show, code);
    AssemblyGenerator.GenerateAssemblyEffects(intrinsics, show, code);
  }
}
