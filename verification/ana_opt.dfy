/** Basic blocks, the flow graph and the generic data-flow fixed point
    (src/compiler/ana_opt.py).

    A block's label is kept as the label's name, `None` for an unlabelled
    block. The source keys the graph's edges and the exit states by the
    block's label object but stores jump targets as names and fall-through
    targets as label objects, so its analysis cannot find the exit state of
    a jump target. Here every label is a name, which lets the analysis of a
    graph with jumps finish. */
module AnaOpt {

  import opened Wrappers
  import opened IR
  import opened Seqs

  datatype Block = Block(labelName: Option<string>, instructions: seq<Instruction>)

  const EmptyBlock := Block(None, [])

  // ---------------------------------------------------------------------------
  // Splitting into basic blocks

  /** The blocks closed so far and the block being filled. */
  datatype SplitState = SplitState(done: seq<Block>, current: Block)

  /** A jump or conditional jump occurs, if at all, only as the last instruction. */
  predicate JumpsOnlyLast(s: seq<Instruction>) {
    forall i :: 0 <= i < |s| - 1 ==> !IsJump(s[i])
  }

  predicate NoJumps(s: seq<Instruction>) {
    forall i :: 0 <= i < |s| ==> !IsJump(s[i])
  }

  /** One turn of the splitting loop. A label closes the current block when
      it holds instructions and starts a block labelled by it; on an empty
      block it only (re)sets the label. Any other instruction is added to the
      current block. A jump then closes the block, and the next one starts
      unlabelled. */
  function SplitStep(st: SplitState, insn: Instruction): (r: SplitState)
  {
    var st1 :=
      if insn.LabelInsn? then
        if |st.current.instructions| > 0 then SplitState(st.done + [st.current], Block(Some(insn.here.name), []))
        else st.(current := st.current.(labelName := Some(insn.here.name)))
      else
        st.(current := st.current.(instructions := st.current.instructions + [insn]));
    if IsJump(insn) then SplitState(st1.done + [st1.current], EmptyBlock) else st1
  }

  /** The state of the splitting loop after the instructions of `code`: every
      closed block holds an instruction and has jumps only last, and the
      block being filled has no jump. */
  function SplitPrefix(code: seq<Instruction>): (r: SplitState)
    ensures forall b :: b in r.done ==> |b.instructions| > 0 && JumpsOnlyLast(b.instructions)
    ensures NoJumps(r.current.instructions)
    decreases |code|
  {
    if |code| == 0 then SplitState([], EmptyBlock)
    else SplitStep(SplitPrefix(code[..|code| - 1]), code[|code| - 1])
  }

  /** The basic blocks of `code`; a last block without instructions is dropped. */
  function SplitIntoBasicBlocks(code: seq<Instruction>): (blocks: seq<Block>)
    ensures forall b :: b in blocks ==> |b.instructions| > 0
    ensures forall b :: b in blocks ==> JumpsOnlyLast(b.instructions)
  {
    var st := SplitPrefix(code);
    if |st.current.instructions| > 0 then st.done + [st.current] else st.done
  }

  function InstructionsOf(b: Block): seq<Instruction> {
    b.instructions
  }

  function NonLabel(insn: Instruction): seq<Instruction> {
    if insn.LabelInsn? then [] else [insn]
  }

  /** The instructions of the blocks, one block after another. */
  function Flatten(blocks: seq<Block>): seq<Instruction> {
    FlatMap(blocks, InstructionsOf)
  }

  /** `code` with its label instructions removed. */
  function WithoutLabels(code: seq<Instruction>): seq<Instruction> {
    FlatMap(code, NonLabel)
  }

  lemma {:induction false} SplitPrefixKeepsInstructions(code: seq<Instruction>)
    ensures Flatten(SplitPrefix(code).done) + SplitPrefix(code).current.instructions == WithoutLabels(code)
    decreases |code|
  {
    if |code| > 0 {
      var p := code[..|code| - 1];
      var insn := code[|code| - 1];
      assert code == p + [insn];
      SplitPrefixKeepsInstructions(p);
      FlatMapSnoc(p, insn, NonLabel);
      var st := SplitPrefix(p);
      FlatMapSnoc(st.done, st.current, InstructionsOf);
      var st1 :=
        if insn.LabelInsn? then
          if |st.current.instructions| > 0 then SplitState(st.done + [st.current], Block(Some(insn.here.name), []))
          else st.(current := st.current.(labelName := Some(insn.here.name)))
        else
          st.(current := st.current.(instructions := st.current.instructions + [insn]));
      FlatMapSnoc(st1.done, st1.current, InstructionsOf);
    }
  }

  /** The blocks hold the instructions of the code in order, labels left out. */
  lemma SplitKeepsInstructions(code: seq<Instruction>)
    ensures Flatten(SplitIntoBasicBlocks(code)) == WithoutLabels(code)
  {
    var st := SplitPrefix(code);
    SplitPrefixKeepsInstructions(code);
    FlatMapSnoc(st.done, st.current, InstructionsOf);
  }

  /** A block written back as code: its label, if any, then its instructions. */
  function Render(b: Block): seq<Instruction> {
    (if b.labelName.Some? then [LabelInsn(Label(b.labelName.value))] else []) + b.instructions
  }

  function Reassemble(blocks: seq<Block>): seq<Instruction> {
    FlatMap(blocks, Render)
  }

  /** No label directly follows another, and the code does not end in a label:
      the two ways the splitter can lose a label. */
  predicate LabelsSeparated(code: seq<Instruction>) {
    (forall i :: 0 <= i < |code| - 1 ==> !(code[i].LabelInsn? && code[i + 1].LabelInsn?))
    && (|code| > 0 ==> !code[|code| - 1].LabelInsn?)
  }

  predicate NoAdjacentLabels(code: seq<Instruction>) {
    forall i :: 0 <= i < |code| - 1 ==> !(code[i].LabelInsn? && code[i + 1].LabelInsn?)
  }

  /** One turn of the splitting loop keeps "the rendered state is the code read
      so far", provided a label does not follow a label. */
  lemma SplitStepRenders(st: SplitState, p: seq<Instruction>, x: Instruction)
    requires Reassemble(st.done) + Render(st.current) == p
    requires st.current.instructions == [] && st.current.labelName.Some? ==> |p| > 0 && p[|p| - 1].LabelInsn?
    requires |p| > 0 && p[|p| - 1].LabelInsn? ==> !x.LabelInsn?
    ensures Reassemble(SplitStep(st, x).done) + Render(SplitStep(st, x).current) == p + [x]
    ensures SplitStep(st, x).current.instructions == [] && SplitStep(st, x).current.labelName.Some? ==> x.LabelInsn?
  {
    var cur := st.current;
    if x.LabelInsn? {
      assert x == LabelInsn(Label(x.here.name));
      if |cur.instructions| > 0 {
        FlatMapSnoc(st.done, cur, Render);
      } else {
        assert Render(cur) == [];
      }
    } else {
      var cur1 := cur.(instructions := cur.instructions + [x]);
      assert Render(cur1) == Render(cur) + [x];
      if IsJump(x) {
        FlatMapSnoc(st.done, cur1, Render);
        assert Render(EmptyBlock) == [];
      }
    }
  }

  lemma {:induction false} SplitPrefixRenders(code: seq<Instruction>)
    requires NoAdjacentLabels(code)
    ensures Reassemble(SplitPrefix(code).done) + Render(SplitPrefix(code).current) == code
    ensures SplitPrefix(code).current.instructions == [] && SplitPrefix(code).current.labelName.Some?
            ==> |code| > 0 && code[|code| - 1].LabelInsn?
    decreases |code|
  {
    if |code| > 0 {
      var p := code[..|code| - 1];
      var x := code[|code| - 1];
      assert code == p + [x];
      assert NoAdjacentLabels(p);
      SplitPrefixRenders(p);
      if |p| > 0 {
        assert p[|p| - 1] == code[|code| - 2];
      }
      SplitStepRenders(SplitPrefix(p), p, x);
    }
  }

  /** Written back, the blocks give the code again, as long as no label was
      dropped: labels are never adjacent and the code does not end in one. */
  lemma SplitRoundTrip(code: seq<Instruction>)
    requires LabelsSeparated(code)
    ensures Reassemble(SplitIntoBasicBlocks(code)) == code
  {
    SplitPrefixRenders(code);
    var st := SplitPrefix(code);
    if |st.current.instructions| > 0 {
      FlatMapSnoc(st.done, st.current, Render);
    } else {
      assert Render(st.current) == [];
    }
  }

  /** The splitting loop continued from `st` over `rest`. */
  function SplitFrom(st: SplitState, rest: seq<Instruction>): SplitState
    decreases |rest|
  {
    if |rest| == 0 then st else SplitFrom(SplitStep(st, rest[0]), rest[1..])
  }

  /** Splitting a concatenation continues from where the first part left off. */
  lemma {:induction false} SplitPrefixConcat(p: seq<Instruction>, q: seq<Instruction>)
    ensures SplitPrefix(p + q) == SplitFrom(SplitPrefix(p), q)
    decreases |q|
  {
    if |q| > 0 {
      assert (p + [q[0]])[..|p|] == p;
      assert p + q == (p + [q[0]]) + q[1..];
      SplitPrefixConcat(p + [q[0]], q[1..]);
    } else {
      assert p + q == p;
    }
  }

  lemma {:induction false} SplitFromConcat(st: SplitState, p: seq<Instruction>, q: seq<Instruction>)
    ensures SplitFrom(st, p + q) == SplitFrom(SplitFrom(st, p), q)
    decreases |p|
  {
    if |p| > 0 {
      assert (p + q)[0] == p[0] && (p + q)[1..] == p[1..] + q;
      SplitFromConcat(SplitStep(st, p[0]), p[1..], q);
    } else {
      assert p + q == q;
    }
  }

  /** Neither a label nor a jump. */
  predicate Straight(s: seq<Instruction>) {
    forall i :: 0 <= i < |s| ==> !s[i].LabelInsn? && !IsJump(s[i])
  }

  /** Straight-line code only extends the block being filled. */
  lemma {:induction false} SplitFromStraight(st: SplitState, s: seq<Instruction>)
    requires Straight(s)
    ensures SplitFrom(st, s) == SplitState(st.done, st.current.(instructions := st.current.instructions + s))
    decreases |s|
  {
    if |s| > 0 {
      SplitFromStraight(SplitStep(st, s[0]), s[1..]);
      assert st.current.instructions + [s[0]] + s[1..] == st.current.instructions + s;
    } else {
      assert st.current.instructions + s == st.current.instructions;
    }
  }

  /** A jump closes the block being filled, and a label after it names the next. */
  lemma SplitFromJumpLabel(st: SplitState, jump: Instruction, l: Label)
    requires IsJump(jump)
    ensures SplitFrom(st, [jump, LabelInsn(l)])
            == SplitState(st.done + [st.current.(instructions := st.current.instructions + [jump])], Block(Some(l.name), []))
  {
    var s1 := SplitStep(st, jump);
    assert [jump, LabelInsn(l)][0] == jump && [jump, LabelInsn(l)][1..] == [LabelInsn(l)];
    assert SplitFrom(st, [jump, LabelInsn(l)]) == SplitFrom(s1, [LabelInsn(l)]);
    assert [LabelInsn(l)][0] == LabelInsn(l) && [LabelInsn(l)][1..] == [];
    assert SplitFrom(s1, [LabelInsn(l)]) == SplitFrom(SplitStep(s1, LabelInsn(l)), []);
  }

  /** A label after instructions closes their block and names the next. */
  lemma SplitFromLabel(st: SplitState, l: Label)
    requires |st.current.instructions| > 0
    ensures SplitFrom(st, [LabelInsn(l)]) == SplitState(st.done + [st.current], Block(Some(l.name), []))
  {
  }

  /** The layout of an `if` with else-branch followed by more code splits into
      four blocks: the condition up to the conditional jump, the then-branch up
      to its jump, the else-branch, and the code after the end label. */
  lemma SplitIfElseLayout(cond: seq<Instruction>, cj: Instruction, thenLabel: Label, thenCode: seq<Instruction>, j: Instruction,
                          elseLabel: Label, elseCode: seq<Instruction>, endLabel: Label, after: seq<Instruction>)
    requires Straight(cond) && Straight(thenCode) && Straight(elseCode) && Straight(after)
    requires cj.CondJump? && j.Jump? && |elseCode| > 0 && |after| > 0
    ensures SplitIntoBasicBlocks(cond + [cj, LabelInsn(thenLabel)] + thenCode + [j, LabelInsn(elseLabel)] + elseCode + [LabelInsn(endLabel)] + after)
            == [Block(None, cond + [cj]), Block(Some(thenLabel.name), thenCode + [j]),
                Block(Some(elseLabel.name), elseCode), Block(Some(endLabel.name), after)]
  {
    var p2 := cond + [cj, LabelInsn(thenLabel)];
    var p3 := p2 + thenCode;
    var p4 := p3 + [j, LabelInsn(elseLabel)];
    var p5 := p4 + elseCode;
    var p6 := p5 + [LabelInsn(endLabel)];
    var b0 := Block(None, cond + [cj]);
    var b1 := Block(Some(thenLabel.name), thenCode + [j]);
    var b2 := Block(Some(elseLabel.name), elseCode);
    var b3 := Block(Some(endLabel.name), after);
    var s0 := SplitState([], EmptyBlock);
    var s1 := SplitState([], Block(None, cond));
    assert SplitFrom(s0, cond) == s1 by {
      SplitFromStraight(s0, cond);
      assert s0.current.instructions + cond == cond;
    }
    var s2 := SplitState([b0], Block(Some(thenLabel.name), []));
    assert SplitFrom(s0, p2) == s2 by {
      SplitFromConcat(s0, cond, [cj, LabelInsn(thenLabel)]);
      SplitFromJumpLabel(s1, cj, thenLabel);
      assert s1.done + [b0] == [b0];
    }
    var s3 := SplitState([b0], Block(Some(thenLabel.name), thenCode));
    assert SplitFrom(s0, p3) == s3 by {
      SplitFromConcat(s0, p2, thenCode);
      SplitFromStraight(s2, thenCode);
      assert s2.current.instructions + thenCode == thenCode;
    }
    var s4 := SplitState([b0, b1], Block(Some(elseLabel.name), []));
    assert SplitFrom(s0, p4) == s4 by {
      SplitFromConcat(s0, p3, [j, LabelInsn(elseLabel)]);
      SplitFromJumpLabel(s3, j, elseLabel);
      assert [b0] + [b1] == [b0, b1];
    }
    var s5 := SplitState([b0, b1], b2);
    assert SplitFrom(s0, p5) == s5 by {
      SplitFromConcat(s0, p4, elseCode);
      SplitFromStraight(s4, elseCode);
      assert s4.current.instructions + elseCode == elseCode;
    }
    var s6 := SplitState([b0, b1, b2], Block(Some(endLabel.name), []));
    assert SplitFrom(s0, p6) == s6 by {
      SplitFromConcat(s0, p5, [LabelInsn(endLabel)]);
      SplitFromLabel(s5, endLabel);
      assert [b0, b1] + [b2] == [b0, b1, b2];
    }
    assert SplitPrefix(p6 + after) == SplitState([b0, b1, b2], b3) by {
      SplitFromConcat(s0, p6, after);
      SplitFromStraight(s6, after);
      assert s6.current.instructions + after == after;
      SplitPrefixConcat([], p6 + after);
      assert [] + (p6 + after) == p6 + after;
    }
    assert [b0, b1, b2] + [b3] == [b0, b1, b2, b3];
  }

  /** A label with nothing after it is dropped with its empty block. */
  lemma SplitDropsTrailingLabel(code: seq<Instruction>, l: Label)
    requires |code| > 0 && IsJump(code[|code| - 1])
    ensures SplitIntoBasicBlocks(code + [LabelInsn(l)]) == SplitIntoBasicBlocks(code)
  {
    assert (code + [LabelInsn(l)])[..|code|] == code;
  }

  // ---------------------------------------------------------------------------
  // The flow graph

  /** The blocks in order, and for each block label the labels control may
      pass to, in the order the edges were added. */
  datatype FlowGraph = FlowGraph(blocks: seq<Block>, edges: map<Option<string>, seq<Option<string>>>)

  const EmptyGraph := FlowGraph([], map[])

  /** The edges stored for `l`, none when `l` is not a key (`edges.get(l, [])`). */
  function Neighbours(g: FlowGraph, l: Option<string>): seq<Option<string>> {
    if l in g.edges then g.edges[l] else []
  }

  /** Appends the block and makes its label a key, keeping the edges it has. */
  function AddBlock(g: FlowGraph, b: Block): (r: FlowGraph)
    ensures r.blocks == g.blocks + [b]
    ensures r.edges.Keys == g.edges.Keys + {b.labelName}
  {
    FlowGraph(g.blocks + [b], if b.labelName !in g.edges then g.edges[b.labelName := []] else g.edges)
  }

  /** Appends one edge to the list of `from`, creating the list if needed. */
  function AddEdge(g: FlowGraph, from: Option<string>, to: Option<string>): (r: FlowGraph)
    ensures r.blocks == g.blocks
    ensures r.edges.Keys == g.edges.Keys + {from}
  {
    if from in g.edges then g.(edges := g.edges[from := g.edges[from] + [to]])
    else g.(edges := g.edges[from := [to]])
  }

  /** Adding a block changes no label's edges. */
  lemma AddBlockNeighbours(g: FlowGraph, b: Block, l: Option<string>)
    ensures Neighbours(AddBlock(g, b), l) == Neighbours(g, l)
  {
  }

  /** Adding an edge appends it to the edges of `from` and nowhere else. */
  lemma AddEdgeNeighbours(g: FlowGraph, from: Option<string>, to: Option<string>, l: Option<string>)
    ensures Neighbours(AddEdge(g, from, to), l) == Neighbours(g, l) + (if l == from then [to] else [])
  {
  }

  datatype GraphError = NoLastInstruction(blockIndex: nat)

  function Last(s: seq<Instruction>): Instruction
    requires |s| > 0
  {
    s[|s| - 1]
  }

  /** Adds block `i` to the graph, then the edges its last instruction
      selects. A block's position is its index in the list; a block without
      instructions has no last instruction. */
  function AddBlockEdges(blocks: seq<Block>, i: nat, g: FlowGraph): (r: Result<FlowGraph, GraphError>)
    requires i < |blocks|
    ensures r.Ok? <==> |blocks[i].instructions| > 0
    ensures r.Err? ==> r.error == NoLastInstruction(i)
    ensures r.Ok? ==> r.value.blocks == g.blocks + [blocks[i]]
  {
    var b := blocks[i];
    var g1 := AddBlock(g, b);
    if |b.instructions| == 0 then Err(NoLastInstruction(i))
    else
      var last := Last(b.instructions);
      if last.Jump? then Ok(AddEdge(g1, b.labelName, Some(last.target.name)))
      else if last.CondJump? then
        Ok(AddEdge(AddEdge(g1, b.labelName, Some(last.thenLabel.name)), b.labelName, Some(last.elseLabel.name)))
      else if i < |blocks| - 1 then Ok(AddEdge(g1, b.labelName, blocks[i + 1].labelName))
      else Ok(g1)
  }

  /** The graph after the first `n` blocks. */
  function BuildPrefix(blocks: seq<Block>, n: nat): (r: Result<FlowGraph, GraphError>)
    requires n <= |blocks|
    decreases n
  {
    if n == 0 then Ok(EmptyGraph)
    else
      var g :- BuildPrefix(blocks, n - 1);
      AddBlockEdges(blocks, n - 1, g)
  }

  /** The whole flow graph of the blocks. */
  function BuildFlowgraph(blocks: seq<Block>): (r: Result<FlowGraph, GraphError>)
    ensures r.Ok? <==> forall i :: 0 <= i < |blocks| ==> |blocks[i].instructions| > 0
    ensures r.Ok? ==> r.value.blocks == blocks
  {
    BuildPrefixEdges(blocks, |blocks|);
    BuildPrefix(blocks, |blocks|)
  }

  /** Reference successors of block `i`: the target of a jump, the two targets
      of a conditional jump, then-target first, otherwise the next block, and
      nothing after the last block. A block without instructions, on which
      building fails, has none. */
  function Successors(blocks: seq<Block>, i: nat): (r: seq<Option<string>>)
    requires i < |blocks|
    ensures |r| <= 2
    ensures |r| == 2 <==> |blocks[i].instructions| > 0 && Last(blocks[i].instructions).CondJump?
    ensures |r| == 0 <==>
      |blocks[i].instructions| == 0
      || (i + 1 == |blocks| && !Last(blocks[i].instructions).Jump? && !Last(blocks[i].instructions).CondJump?)
    ensures i + 1 < |blocks| && |blocks[i].instructions| > 0
            && !Last(blocks[i].instructions).Jump? && !Last(blocks[i].instructions).CondJump?
            ==> r == [blocks[i + 1].labelName]
  {
    if |blocks[i].instructions| == 0 then [] else
    match Last(blocks[i].instructions)
    case Jump(target) => [Some(target.name)]
    case CondJump(_, thenLabel, elseLabel) => [Some(thenLabel.name), Some(elseLabel.name)]
    case _ => if i + 1 < |blocks| then [blocks[i + 1].labelName] else []
  }

  predicate NonEmptyUpTo(blocks: seq<Block>, n: nat) {
    forall i :: 0 <= i < n && i < |blocks| ==> |blocks[i].instructions| > 0
  }

  lemma NonEmptyUpToStep(blocks: seq<Block>, n: nat)
    requires 0 < n <= |blocks|
    ensures NonEmptyUpTo(blocks, n) <==> NonEmptyUpTo(blocks, n - 1) && |blocks[n - 1].instructions| > 0
  {
  }

  /** Reference edges of the label `l` after `n` blocks: the successors of every
      block carrying `l`, block after block. Blocks sharing a label (the
      unlabelled ones all share `None`) share one edge list. */
  function LabelSuccessors(blocks: seq<Block>, n: nat, l: Option<string>): seq<Option<string>>
    requires n <= |blocks|
  {
    if n == 0 then []
    else LabelSuccessors(blocks, n - 1, l) + (if blocks[n - 1].labelName == l then Successors(blocks, n - 1) else [])
  }

  function LabelsUpTo(blocks: seq<Block>, n: nat): set<Option<string>>
    requires n <= |blocks|
  {
    set i | 0 <= i < n :: blocks[i].labelName
  }

  /** The graph agrees with the reference for the first `n` blocks. */
  ghost predicate BuiltUpTo(blocks: seq<Block>, n: nat, g: FlowGraph)
    requires n <= |blocks|
  {
    g.blocks == blocks[..n] && g.edges.Keys == LabelsUpTo(blocks, n)
    && forall l :: Neighbours(g, l) == LabelSuccessors(blocks, n, l)
  }

  /** Adding a block appends its successors to the edges of its label and
      leaves every other label's edges alone. */
  lemma AddBlockEdgesNeighbours(blocks: seq<Block>, i: nat, g: FlowGraph, l: Option<string>)
    requires i < |blocks| && |blocks[i].instructions| > 0
    ensures AddBlockEdges(blocks, i, g).Ok?
    ensures Neighbours(AddBlockEdges(blocks, i, g).value, l)
            == Neighbours(g, l) + (if blocks[i].labelName == l then Successors(blocks, i) else [])
  {
    var b := blocks[i];
    var g1 := AddBlock(g, b);
    AddBlockNeighbours(g, b, l);
    var last := Last(b.instructions);
    if last.Jump? {
      AddEdgeNeighbours(g1, b.labelName, Some(last.target.name), l);
    } else if last.CondJump? {
      AddEdgeNeighbours(g1, b.labelName, Some(last.thenLabel.name), l);
      AddEdgeNeighbours(AddEdge(g1, b.labelName, Some(last.thenLabel.name)), b.labelName, Some(last.elseLabel.name), l);
    } else if i < |blocks| - 1 {
      AddEdgeNeighbours(g1, b.labelName, blocks[i + 1].labelName, l);
    }
  }

  /** Adding block `i` fails exactly when it is empty, and otherwise extends
      the agreement with the reference by that block. */
  lemma AddBlockEdgesStep(blocks: seq<Block>, i: nat, g: FlowGraph)
    requires i < |blocks| && BuiltUpTo(blocks, i, g)
    ensures AddBlockEdges(blocks, i, g).Ok? <==> |blocks[i].instructions| > 0
    ensures AddBlockEdges(blocks, i, g).Ok? ==> BuiltUpTo(blocks, i + 1, AddBlockEdges(blocks, i, g).value)
  {
    if |blocks[i].instructions| > 0 {
      var r := AddBlockEdges(blocks, i, g).value;
      assert LabelsUpTo(blocks, i + 1) == LabelsUpTo(blocks, i) + {blocks[i].labelName};
      assert blocks[..i + 1] == blocks[..i] + [blocks[i]];
      forall l
        ensures Neighbours(r, l) == LabelSuccessors(blocks, i + 1, l)
      {
        AddBlockEdgesNeighbours(blocks, i, g, l);
      }
    }
  }

  lemma BuildPrefixUnfold(blocks: seq<Block>, n: nat)
    requires 0 < n <= |blocks|
    ensures BuildPrefix(blocks, n)
            == if BuildPrefix(blocks, n - 1).Ok? then AddBlockEdges(blocks, n - 1, BuildPrefix(blocks, n - 1).value)
               else Err(BuildPrefix(blocks, n - 1).error)
  {
  }

  /** Building succeeds exactly when every block holds an instruction; the
      graph then holds the blocks, has their labels as keys, and the edges of
      each label are its reference successors. */
  lemma {:induction false} BuildPrefixEdges(blocks: seq<Block>, n: nat)
    requires n <= |blocks|
    ensures BuildPrefix(blocks, n).Ok? <==> NonEmptyUpTo(blocks, n)
    ensures BuildPrefix(blocks, n).Ok? ==> BuiltUpTo(blocks, n, BuildPrefix(blocks, n).value)
    decreases n
  {
    if n == 0 {
      assert LabelsUpTo(blocks, 0) == {} && blocks[..0] == [];
      assert BuiltUpTo(blocks, 0, EmptyGraph);
    } else {
      var prev := BuildPrefix(blocks, n - 1);
      BuildPrefixEdges(blocks, n - 1);
      NonEmptyUpToStep(blocks, n);
      BuildPrefixUnfold(blocks, n);
      if prev.Ok? {
        assert BuildPrefix(blocks, n) == AddBlockEdges(blocks, n - 1, prev.value);
        AddBlockEdgesStep(blocks, n - 1, prev.value);
      } else {
        assert BuildPrefix(blocks, n).Err? && !NonEmptyUpTo(blocks, n - 1);
      }
    }
  }

  lemma BuildFlowgraphEdges(blocks: seq<Block>)
    ensures BuildFlowgraph(blocks).Ok? <==> forall b :: b in blocks ==> |b.instructions| > 0
    ensures BuildFlowgraph(blocks).Ok? ==>
      var g := BuildFlowgraph(blocks).value;
      g.blocks == blocks && g.edges.Keys == (set b | b in blocks :: b.labelName)
      && forall l :: Neighbours(g, l) == LabelSuccessors(blocks, |blocks|, l)
  {
    BuildPrefixEdges(blocks, |blocks|);
    assert blocks[..|blocks|] == blocks;
    assert NonEmptyUpTo(blocks, |blocks|) <==> forall b :: b in blocks ==> |b.instructions| > 0;
    assert LabelsUpTo(blocks, |blocks|) == (set b | b in blocks :: b.labelName) by {
      forall l | l in (set b | b in blocks :: b.labelName) ensures l in LabelsUpTo(blocks, |blocks|) {
        var b :| b in blocks && b.labelName == l;
        var i :| 0 <= i < |blocks| && blocks[i] == b;
      }
    }
  }

  /** The edges of a label no other block carries are the successors of the
      one block carrying it. */
  lemma {:induction false} LabelSuccessorsOfUnique(blocks: seq<Block>, n: nat, i: nat)
    requires i < n <= |blocks|
    requires forall j :: 0 <= j < n && j != i ==> blocks[j].labelName != blocks[i].labelName
    ensures LabelSuccessors(blocks, n, blocks[i].labelName) == Successors(blocks, i)
    decreases n
  {
    if n - 1 != i {
      LabelSuccessorsOfUnique(blocks, n - 1, i);
    } else {
      LabelSuccessorsOfAbsent(blocks, i, blocks[i].labelName);
    }
  }

  /** A label no block carries has no edges. */
  lemma {:induction false} LabelSuccessorsOfAbsent(blocks: seq<Block>, n: nat, l: Option<string>)
    requires n <= |blocks|
    requires forall j :: 0 <= j < n ==> blocks[j].labelName != l
    ensures LabelSuccessors(blocks, n, l) == []
    decreases n
  {
    if n > 0 {
      LabelSuccessorsOfAbsent(blocks, n - 1, l);
    }
  }

  /** In a graph whose block `i` is the only one with its label, that label's
      edges are the block's reference successors. */
  lemma BuildFlowgraphUniqueLabel(blocks: seq<Block>, i: nat)
    requires i < |blocks| && BuildFlowgraph(blocks).Ok?
    requires forall j :: 0 <= j < |blocks| && j != i ==> blocks[j].labelName != blocks[i].labelName
    ensures Neighbours(BuildFlowgraph(blocks).value, blocks[i].labelName) == Successors(blocks, i)
  {
    BuildFlowgraphEdges(blocks);
    LabelSuccessorsOfUnique(blocks, |blocks|, i);
  }

  // ---------------------------------------------------------------------------
  // Program states of reaching definitions

  /** For each IR variable, the indices of the instructions that may have defined it. */
  datatype ProgramState = ProgramState(definitions: map<IRVar, set<nat>>)

  /** The definitions recorded for `v`, none when it is not a key. */
  function Defs(s: ProgramState, v: IRVar): set<nat> {
    if v in s.definitions then s.definitions[v] else {}
  }

  /** Records that the instruction at `index` may define `v`. */
  function AddDefinition(s: ProgramState, v: IRVar, index: nat): (r: ProgramState)
    ensures r.definitions.Keys == s.definitions.Keys + {v}
    ensures Defs(r, v) == Defs(s, v) + {index}
    ensures forall w :: w != v ==> Defs(r, w) == Defs(s, w)
  {
    var defs := if v !in s.definitions then {} else s.definitions[v];
    ProgramState(s.definitions[v := defs + {index}])
  }

  /** Merges `other` into `s`: a variable only `other` knows takes its set, a
      variable both know takes the union. */
  function Merge(s: ProgramState, other: ProgramState): (r: ProgramState)
    ensures r.definitions.Keys == s.definitions.Keys + other.definitions.Keys
    ensures forall v :: Defs(r, v) == Defs(s, v) + Defs(other, v)
  {
    ProgramState(map v | v in s.definitions.Keys + other.definitions.Keys ::
      if v !in s.definitions then other.definitions[v]
      else if v in other.definitions then s.definitions[v] + other.definitions[v]
      else s.definitions[v])
  }

  /** `big` holds at least the definitions of `small`, variable by variable. */
  predicate Includes(big: ProgramState, small: ProgramState) {
    small.definitions.Keys <= big.definitions.Keys
    && forall v :: v in small.definitions ==> small.definitions[v] <= Defs(big, v)
  }

  /** Merging is the least upper bound under inclusion. */
  lemma MergeIsLeastUpperBound(s: ProgramState, other: ProgramState, t: ProgramState)
    ensures Includes(Merge(s, other), s) && Includes(Merge(s, other), other)
    ensures Includes(t, s) && Includes(t, other) ==> Includes(t, Merge(s, other))
  {
  }

  /** Two states are equal when they have the same keys and the same sets. */
  lemma StateExtensionality(a: ProgramState, b: ProgramState)
    requires a.definitions.Keys == b.definitions.Keys
    requires forall v :: Defs(a, v) == Defs(b, v)
    ensures a == b
  {
    assert forall v :: v in a.definitions ==> a.definitions[v] == Defs(a, v);
  }

  lemma MergeCommutes(a: ProgramState, b: ProgramState)
    ensures Merge(a, b) == Merge(b, a)
  {
    StateExtensionality(Merge(a, b), Merge(b, a));
  }

  lemma MergeAssociates(a: ProgramState, b: ProgramState, c: ProgramState)
    ensures Merge(Merge(a, b), c) == Merge(a, Merge(b, c))
  {
    StateExtensionality(Merge(Merge(a, b), c), Merge(a, Merge(b, c)));
  }

  lemma MergeIdempotent(a: ProgramState)
    ensures Merge(a, a) == a
  {
    StateExtensionality(Merge(a, a), a);
  }

  /** The empty state is the unit of merging. */
  lemma MergeEmpty(a: ProgramState)
    ensures Merge(ProgramState(map[]), a) == a && Merge(a, ProgramState(map[])) == a
  {
    StateExtensionality(Merge(ProgramState(map[]), a), a);
    StateExtensionality(Merge(a, ProgramState(map[])), a);
  }

  /** Recording one definition is merging in the state that holds only it. */
  lemma AddDefinitionIsMerge(s: ProgramState, v: IRVar, index: nat)
    ensures AddDefinition(s, v, index) == Merge(s, ProgramState(map[v := {index}]))
  {
    StateExtensionality(AddDefinition(s, v, index), Merge(s, ProgramState(map[v := {index}])));
  }

  // ---------------------------------------------------------------------------
  // The data-flow fixed point

  /** Entry and exit state of every block label. */
  datatype States<S> = States(entries: map<Option<string>, S>, exits: map<Option<string>, S>)

  datatype AnalysisError = UnknownLabel(missing: Option<string>) | OutOfFuel

  /** One analysis: its start state, the transfer over a block and the merge
      of two states. */
  datatype Analysis<!S> = Analysis(initial: S, transfer: (S, Block) -> S, merge: (S, S) -> S)

  /** Every block label starts with the initial state on entry and exit. */
  function InitialStates<S>(blocks: seq<Block>, initial: S): (st: States<S>)
    ensures st.entries.Keys == st.exits.Keys == set b | b in blocks :: b.labelName
    ensures forall l :: l in st.exits ==> st.exits[l] == initial && st.entries[l] == initial
  {
    var labels := set b | b in blocks :: b.labelName;
    States(map l | l in labels :: initial, map l | l in labels :: initial)
  }

  /** `acc` merged with the exit state of each label of `labels`, left to
      right; a label without an exit state is an error. */
  function FoldExits<S>(a: Analysis<S>, acc: S, exits: map<Option<string>, S>, labels: seq<Option<string>>): (r: Result<S, AnalysisError>)
    ensures r.Err? <==> exists k :: 0 <= k < |labels| && labels[k] !in exits
    ensures r.Err? ==> r.error.UnknownLabel? && r.error.missing in labels && r.error.missing !in exits
    decreases |labels|
  {
    if |labels| == 0 then Ok(acc)
    else if labels[0] !in exits then Err(UnknownLabel(labels[0]))
    else FoldExits(a, a.merge(acc, exits[labels[0]]), exits, labels[1..])
  }

  /** The entry state of the label `l`: the initial state merged with the exit
      state of each label the graph stores under `l`. Those are the successors
      the graph was built with, so information flows backwards along the edges. */
  function EntryOf<S>(g: FlowGraph, a: Analysis<S>, exits: map<Option<string>, S>, l: Option<string>): (r: Result<S, AnalysisError>)
    ensures r.Err? <==> exists k :: 0 <= k < |Neighbours(g, l)| && Neighbours(g, l)[k] !in exits
    ensures r.Err? ==> r.error.UnknownLabel? && r.error.missing in Neighbours(g, l) && r.error.missing !in exits
    ensures |Neighbours(g, l)| == 0 ==> r == Ok(a.initial)
  {
    FoldExits(a, a.initial, exits, Neighbours(g, l))
  }

  /** Blocks `i..` of one pass over the graph, updating the states in place.
      The flag tells whether some exit state changed. */
  function PassFrom<S(==)>(g: FlowGraph, a: Analysis<S>, i: nat, st: States<S>): (r: Result<(States<S>, bool), AnalysisError>)
    ensures r.Err? ==> r.error.UnknownLabel?
    ensures r.Ok? && !r.value.1 ==> r.value.0.exits == st.exits
    ensures i >= |g.blocks| ==> r == Ok((st, false))
    decreases |g.blocks| - i
  {
    if i >= |g.blocks| then Ok((st, false))
    else
      var b := g.blocks[i];
      var entry :- EntryOf(g, a, st.exits, b.labelName);
      var st1 := st.(entries := st.entries[b.labelName := entry]);
      var newExit := a.transfer(entry, b);
      if b.labelName !in st.exits then Err(UnknownLabel(b.labelName))
      else
        var changed := newExit != st.exits[b.labelName];
        var st2 := if changed then st1.(exits := st1.exits[b.labelName := newExit]) else st1;
        var rest :- PassFrom(g, a, i + 1, st2);
        Ok((rest.0, changed || rest.1))
  }

  /** Block `i` is at its fixed point: its entry state is what its edges give,
      and its exit state is the transfer of its entry state. */
  ghost predicate BlockStable<S>(g: FlowGraph, a: Analysis<S>, st: States<S>, i: nat)
    requires i < |g.blocks|
  {
    var l := g.blocks[i].labelName;
    l in st.entries && l in st.exits
    && EntryOf(g, a, st.exits, l) == Ok(st.entries[l])
    && st.exits[l] == a.transfer(st.entries[l], g.blocks[i])
  }

  ghost predicate Stable<S>(g: FlowGraph, a: Analysis<S>, st: States<S>) {
    forall i :: 0 <= i < |g.blocks| ==> BlockStable(g, a, st, i)
  }

  function LabelsFrom(g: FlowGraph, i: nat): set<Option<string>> {
    set j | i <= j < |g.blocks| :: g.blocks[j].labelName
  }

  /** A pass from block `i` that changes no exit state leaves the exit states
      as they were, sets the entry state of every label it visits to what the
      edges give, leaves other entry states alone, and leaves blocks `i..` at
      their fixed point. */
  lemma {:induction false} QuietPass<S>(g: FlowGraph, a: Analysis<S>, i: nat, st: States<S>)
    requires PassFrom(g, a, i, st).Ok? && !PassFrom(g, a, i, st).value.1
    ensures
      var st' := PassFrom(g, a, i, st).value.0;
      st'.exits == st.exits
      && st'.entries.Keys == st.entries.Keys + LabelsFrom(g, i)
      && (forall l :: l in st.entries && l !in LabelsFrom(g, i) ==> st'.entries[l] == st.entries[l])
      && (forall l :: l in LabelsFrom(g, i) ==> EntryOf(g, a, st.exits, l) == Ok(st'.entries[l]))
      && forall j :: i <= j < |g.blocks| ==> BlockStable(g, a, st', j)
    decreases |g.blocks| - i
  {
    if i < |g.blocks| {
      var b := g.blocks[i];
      var l := b.labelName;
      var entry := EntryOf(g, a, st.exits, l).value;
      var st1 := st.(entries := st.entries[l := entry]);
      assert PassFrom(g, a, i + 1, st1).Ok? && !PassFrom(g, a, i + 1, st1).value.1;
      QuietPass(g, a, i + 1, st1);
      assert LabelsFrom(g, i) == LabelsFrom(g, i + 1) + {l};
    }
  }

  /** A pass over a graph at its fixed point changes nothing. */
  lemma {:induction false} StablePassIsQuiet<S>(g: FlowGraph, a: Analysis<S>, i: nat, st: States<S>)
    requires Stable(g, a, st)
    ensures PassFrom(g, a, i, st) == Ok((st, false))
    decreases |g.blocks| - i
  {
    if i < |g.blocks| {
      var l := g.blocks[i].labelName;
      assert BlockStable(g, a, st, i);
      assert st.(entries := st.entries[l := st.entries[l]]) == st;
      StablePassIsQuiet(g, a, i + 1, st);
    }
  }

  /** Runs passes until one changes no exit state, as the source's loop does;
      `fuel` bounds the number of passes. On success every block is at its
      fixed point. */
  method Analyze<S(==)>(g: FlowGraph, a: Analysis<S>, fuel: nat) returns (r: Result<States<S>, AnalysisError>)
    ensures r.Ok? ==> Stable(g, a, r.value)
    ensures r.Ok? ==> r.value.exits.Keys == set b | b in g.blocks :: b.labelName
  {
    var st := InitialStates(g.blocks, a.initial);
    var changed := true;
    var passes := 0;
    while changed
      invariant passes <= fuel
      invariant st.exits.Keys == set b | b in g.blocks :: b.labelName
      invariant !changed ==> Stable(g, a, st)
      decreases fuel - passes
    {
      if passes == fuel {
        return Err(OutOfFuel);
      }
      var p := PassFrom(g, a, 0, st);
      if p.Err? {
        return Err(p.error);
      }
      if !p.value.1 {
        QuietPass(g, a, 0, st);
      } else {
        PassKeepsExitKeys(g, a, 0, st);
      }
      st, changed := p.value.0, p.value.1;
      passes := passes + 1;
    }
    return Ok(st);
  }

  /** A pass changes exit states only of labels that have one. */
  lemma {:induction false} PassKeepsExitKeys<S>(g: FlowGraph, a: Analysis<S>, i: nat, st: States<S>)
    requires PassFrom(g, a, i, st).Ok?
    ensures PassFrom(g, a, i, st).value.0.exits.Keys == st.exits.Keys
    decreases |g.blocks| - i
  {
    if i < |g.blocks| {
      var b := g.blocks[i];
      var l := b.labelName;
      var entry := EntryOf(g, a, st.exits, l).value;
      var st1 := st.(entries := st.entries[l := entry]);
      var newExit := a.transfer(entry, b);
      var st2 := if newExit != st.exits[l] then st1.(exits := st1.exits[l := newExit]) else st1;
      PassKeepsExitKeys(g, a, i + 1, st2);
    }
  }

  /** The labels and the emptiness test of a four-block list, block by block. */
  lemma FourBlockLabels(blocks: seq<Block>)
    requires |blocks| == 4
    ensures (set b | b in blocks :: b.labelName)
            == {blocks[0].labelName, blocks[1].labelName, blocks[2].labelName, blocks[3].labelName}
    ensures (forall b :: b in blocks ==> |b.instructions| > 0)
            <==> |blocks[0].instructions| > 0 && |blocks[1].instructions| > 0
                 && |blocks[2].instructions| > 0 && |blocks[3].instructions| > 0
  {
    assert blocks == [blocks[0], blocks[1], blocks[2], blocks[3]];
  }

  /** The flow graph of the four blocks of an `if` with else-branch: the
      condition's block branches to both labels, the then-block jumps to the
      end, the else-block falls through to it, and the last block has no
      successor. */
  lemma IfElseFlowgraph(blocks: seq<Block>, cond: seq<Instruction>, c: IRVar, thenLabel: Label, thenCode: seq<Instruction>,
                        elseLabel: Label, elseCode: seq<Instruction>, endLabel: Label, after: seq<Instruction>)
    requires blocks == [Block(None, cond + [CondJump(c, thenLabel, elseLabel)]), Block(Some(thenLabel.name), thenCode + [Jump(endLabel)]),
                        Block(Some(elseLabel.name), elseCode), Block(Some(endLabel.name), after)]
    requires Straight(elseCode) && Straight(after) && |elseCode| > 0 && |after| > 0
    requires thenLabel.name != elseLabel.name && thenLabel.name != endLabel.name && elseLabel.name != endLabel.name
    ensures BuildFlowgraph(blocks).Ok?
    ensures BuildFlowgraph(blocks).value.edges
            == map[None := [Some(thenLabel.name), Some(elseLabel.name)], Some(thenLabel.name) := [Some(endLabel.name)],
                   Some(elseLabel.name) := [Some(endLabel.name)], Some(endLabel.name) := []]
  {
    var l0: Option<string>, l1, l2, l3 := None, Some(thenLabel.name), Some(elseLabel.name), Some(endLabel.name);
    assert BuildFlowgraph(blocks).Ok? && BuildFlowgraph(blocks).value.edges.Keys == {l0, l1, l2, l3} by {
      assert blocks[0].labelName == l0 && blocks[1].labelName == l1 && blocks[2].labelName == l2 && blocks[3].labelName == l3;
      assert |blocks[0].instructions| > 0 && |blocks[1].instructions| > 0 && |blocks[2].instructions| > 0 && |blocks[3].instructions| > 0;
      FourBlockLabels(blocks);
      BuildFlowgraphEdges(blocks);
    }
    assert Successors(blocks, 0) == [l1, l2] by {
      assert Last(blocks[0].instructions) == CondJump(c, thenLabel, elseLabel);
    }
    assert Successors(blocks, 1) == [l3] by {
      assert Last(blocks[1].instructions) == Jump(endLabel);
    }
    assert Successors(blocks, 2) == [l3] by {
      assert Last(elseCode) == elseCode[|elseCode| - 1];
    }
    assert Successors(blocks, 3) == [] by {
      assert Last(after) == after[|after| - 1];
    }

    var g := BuildFlowgraph(blocks).value;
    assert Neighbours(g, l0) == [l1, l2] by {
      BuildFlowgraphUniqueLabel(blocks, 0);
    }
    assert Neighbours(g, l1) == [l3] by {
      BuildFlowgraphUniqueLabel(blocks, 1);
    }
    assert Neighbours(g, l2) == [l3] by {
      BuildFlowgraphUniqueLabel(blocks, 2);
    }
    assert Neighbours(g, l3) == [] by {
      BuildFlowgraphUniqueLabel(blocks, 3);
    }
  }
}
