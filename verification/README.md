# A verified model of a toy expression compiler

The compiler reads an expression language of integer literals, `+ - * /`, `<`,
parentheses and `if … then … else …`. It runs in these stages:

- a precedence-climbing parser builds the expression tree;
- a type checker gives every tree the type `Int`, `Bool` or `Unit`;
- a tree-walking interpreter evaluates the tree;
- a symbol table stacks scopes and holds the built-in operator signatures;
- an IR generator turns the tree into a linear list of instructions, using
  fresh variables `x1, x2, …` and fresh labels `L1, L2, …`;
- an analysis stage cuts the IR into basic blocks, links them into a flow
  graph and runs a generic data-flow fixed point over it;
- an assembly generator gives every IR variable a stack slot and lowers each
  instruction to x86-64 lines.

Each stage is one Dafny module named after its source file:

- `Parser` and `ParserProperties` (parser.py);
- `TypeChecker` (type_checker.py);
- `Interpreter` (interpreter.py);
- `SymTab` (SymTab.py);
- `IRGenerator` (ir_generator.py);
- `AnaOpt` (ana_opt.py);
- `AssemblyGenerator` (assembly_generator.py).

Shared data lives in these modules:

- `Ast`: the tree;
- `Types`: `Int`, `Bool`, `Unit` and function and pointer types;
- `IR`: instructions, variables and labels;
- `Decimal`: Python's `str` and `int` on naturals;
- `Seqs`: sequence facts;
- `Wrappers`: `Option` and `Result`.

`Pipeline` runs the stages one after another on the program
`if 1 < 2 then 3 else 4`. It has the same shape as the `if-else` program
that the analysis and assembly tests use.

Each operation is a pure function, except for two methods:

- `AnaOpt.Analyze`, the fixed-point loop;
- `AssemblyGenerator.GetAllIrVariables`, the loop that collects variables.

Where the source raises an exception on purpose — a failed type check, a
missing name, an unknown operator, node or instruction, an empty stack or an
empty block — the model returns an `Err` value. The model does not stop with a
precondition there. The type objects of the source are the exception: see
"Left out".

## Model

| member | source | states |
|---|---|---|
| Decimal.NatToString | src/compiler/ir_generator.py:23 | the decimal spelling of a natural is a non-empty digit string, and it has one digit exactly for numbers below ten |
| Decimal.StringToNatRoundTrip | src/compiler/parser.py:26 | reading the decimal spelling of a natural back gives the same natural |
| Decimal.NatToStringInjective | src/compiler/ir_generator.py:23 | different naturals have different spellings, so the generator's `x<n>` and `L<n>` names never collide |
| Decimal.ParseNat | src/compiler/parser.py:26 | `int(text)` succeeds exactly on non-empty digit strings |
| Decimal.ParseNatRoundTrip | src/compiler/parser.py:26 | `int(str(n)) == n` for every natural `n` |
| Decimal.PrefixedNameInjective | src/compiler/ir_generator.py:23 | two names with the same prefix and different numbers differ |
| Parser.Peek | src/compiler/parser.py:8-12 | the token at the position, or the end token past the last one |
| Parser.Consume | src/compiler/parser.py:14-20 | it fails exactly when an expected text is given and the current token has another text, and then it names both texts; otherwise it returns the current token and moves one position on |
| Parser.ParseLiteral | src/compiler/parser.py:22-28 | it succeeds exactly on an integer-literal token whose text is a number; the result is that number as a literal, and exactly one token is read |
| Parser.ParseExpression | src/compiler/parser.py:30-40 | a successful parse reads at least one token and never reads past the end |
| Parser.ComparisonTail | src/compiler/parser.py:36-39 | the `<` loop never moves backwards or past the end |
| Parser.ParsePolynomial | src/compiler/parser.py:42-48 | a successful parse reads at least one token and stays within the list |
| Parser.AdditiveTail | src/compiler/parser.py:44-47 | the `+ -` loop never moves backwards or past the end |
| Parser.ParseTerm | src/compiler/parser.py:51-57 | a successful parse reads at least one token and stays within the list |
| Parser.MultiplicativeTail | src/compiler/parser.py:53-56 | the `* /` loop never moves backwards or past the end |
| Parser.ParseFactor | src/compiler/parser.py:59-67 | a factor starts only at `(`, at `if` or at an integer literal, and it reads at least one token |
| Parser.ParseIfExpression | src/compiler/parser.py:69-79 | a successful parse is an `if` node and reads at least one token |
| Parser.ParseParenthesized | src/compiler/parser.py:81-85 | a successful parse reads at least one token and stays within the list |
| Parser.ParseExpressionRightAssoc | src/compiler/parser.py:87-94 | a successful parse reads at least one token and stays within the list |
| Parser.Parse | src/compiler/parser.py:5-96 | only a non-empty token list can parse |
| ParserProperties.ParseRoundTrip | src/compiler/parser.py:5-96 | parsing the fully parenthesised spelling of any tree, in either mode, gives the tree back; tokens after a stopper are ignored, and an `if` without `else` gets no else clause |
| ParserProperties.ExpressionRoundTrip | src/compiler/parser.py:30-40 | at any position, the spelling of a tree followed by a stopper parses to that tree and ends right after the spelling |
| ParserProperties.FactorRoundTrip | src/compiler/parser.py:59-67 | the spelling of a tree parses as one factor that ends right after the spelling |
| ParserProperties.BinaryOpRoundTrip | src/compiler/parser.py:81-85 | a parenthesised `l op r` parses to the node `BinaryOp(l, op, r)` |
| ParserProperties.IfRoundTrip | src/compiler/parser.py:69-79 | a parenthesised `if` spelling parses to the same `if` node, with or without its else clause |
| ParserProperties.ParenthesizedFactor | src/compiler/parser.py:81-85 | parentheses around a parsed expression leave no node behind and the parse ends after `)` |
| ParserProperties.InfixExpression | src/compiler/parser.py:30-57 | two factors joined by one operator and followed by a stopper make one binary node |
| ParserProperties.IfFactor | src/compiler/parser.py:69-79 | `if c then t [else e]` parses to an `if` node with exactly those parts |
| ParserProperties.LiteralFactor | src/compiler/parser.py:22-28 | the spelling of a natural is read back as the same literal |
| ParserProperties.AdditiveChainsAssociateLeft | tests/parser_test.py:17-26 | `n0 ± n1 ± … ± nk` parses to the tree that groups to the left |
| ParserProperties.AdditiveChain | src/compiler/parser.py:44-47 | the additive loop folds a chain of `± n` pairs onto its left operand, from the left |
| ParserProperties.MultiplicativeChainsAssociateLeft | src/compiler/parser.py:51-57 | `n0 */ n1 */ … */ nk` groups to the left in both modes, since terms are parsed the same way in each |
| ParserProperties.MultiplicativeChain | src/compiler/parser.py:53-56 | the multiplicative loop folds a chain of `*/ n` pairs onto its left operand, from the left |
| ParserProperties.RightAssociativeChainsNestRight | tests/parser_test.py:117-126 | in the right-associative mode, a chain of literals joined by operators other than `* /` nests to the right |
| ParserProperties.RightAssocChain | src/compiler/parser.py:87-94 | the right-associative level takes the whole rest of the chain as its right operand |
| ParserProperties.ProductBindsTighterOnRight | tests/parser_test.py:27-36 | `a + b * c` parses to `a + (b * c)`, for every additive and multiplicative operator |
| ParserProperties.ProductBindsTighterOnLeft | src/compiler/parser.py:42-57 | `a * b + c` parses to `(a * b) + c` |
| ParserProperties.SumBindsTighterOnRight | src/compiler/parser.py:30-48 | `a < b + c` parses to `a < (b + c)` |
| ParserProperties.SumBindsTighterOnLeft | src/compiler/parser.py:30-48 | `a + b < c` parses to `(a + b) < c` |
| TypeChecker.LiteralType | src/compiler/type_checker.py:7-10 | a literal has a type exactly when it is not `None`; that type is basic and not `Unit` |
| TypeChecker.Check | src/compiler/type_checker.py:5-40 | only literals, binary operators and `if` nodes are accepted, and the type is always basic |
| TypeChecker.TypecheckAsWritten | src/compiler/type_checker.py:5-40 | as written, every literal other than `None` is typed `Int`, booleans included, and every accepted type is basic |
| TypeChecker.Typecheck | src/compiler/type_checker.py:5-40 | an accepted tree gets `Int`, `Bool` or `Unit` |
| TypeChecker.TypecheckMatchesRules | src/compiler/type_checker.py:5-40 | the checker returns type `t` exactly when the typing rules give the tree type `t` |
| TypeChecker.TypesAreUnique | src/compiler/type_checker.py:5-40 | a tree has at most one type under the rules |
| TypeChecker.UnknownOperatorRejected | src/compiler/type_checker.py:23-24 | an operator that is neither arithmetic nor `<` is rejected |
| TypeChecker.IfWithoutElseIsUnit | src/compiler/type_checker.py:30-32 | an `if` without `else` is accepted and has type `Unit`, whatever its parts are |
| TypeChecker.CheckersAgreeWithoutBoolLiterals | src/compiler/type_checker.py:8-9 | on trees without boolean literals, the checker as written and the corrected checker agree |
| TypeChecker.CheckerExamples | tests/type_checker_test.py:20-29 | the test expressions get `Int`, `Bool` or `Unit`, or are rejected, as the tests expect |
| Interpreter.AsNumber | src/compiler/interpreter.py:12-26 | Python arithmetic on a value: ints as themselves, `True`/`False` as 1/0, and `None` unusable |
| Interpreter.ValueOf | src/compiler/interpreter.py:9-10 | a literal stores an int, a boolean or `None`, and its value is that int, that boolean or `None` |
| Interpreter.Apply | src/compiler/interpreter.py:12-26 | `+ - * <` succeed exactly when neither operand is `None`; on the operands' numbers, with booleans as 1 and 0, they give `x + y`, `x - y`, `x * y` and the boolean `x < y`; `/` fails, by zero as division by zero and otherwise as a float result; any other operator is unsupported |
| Interpreter.Interpret | src/compiler/interpreter.py:7-38 | a literal evaluates to the value it stores, a binary node evaluates only with one of `+ - * <`, and any other node kind is unsupported |
| Interpreter.BinaryEvaluation | src/compiler/interpreter.py:12-26 | a binary node evaluates its left operand, then its right operand, then applies the operator to the two values; the first error is the result |
| Interpreter.IntegerArithmetic | src/compiler/interpreter.py:15-24 | on operands that evaluate to integers, `+ - * <` give the integer sum, difference, product and comparison |
| Interpreter.OnlyTakenBranchEvaluated | src/compiler/interpreter.py:28-35 | an `if` evaluates to the then branch on a truthy condition, otherwise to the else branch, or to `None` without one |
| Interpreter.Soundness | src/compiler/interpreter.py:7-38 | a tree the corrected checker accepts, and that has no `/`, evaluates without error to a value of its type |
| Interpreter.AsWrittenCheckerIsUnsound | src/compiler/type_checker.py:8-9 | the checker as written types `true` as `Int` although it evaluates to a boolean, and rejects `if true then 42 else 43` |
| Interpreter.InterpreterExamples | tests/interpreter_test.py:10-17 | the test expressions evaluate to the values the tests expect |
| SymTab.NewSymTab | src/compiler/SymTab.py:11-14 | a new table has one empty scope |
| SymTab.EnterScope | src/compiler/SymTab.py:17-18 | entering pushes one empty scope and keeps the others |
| SymTab.LeaveScope | src/compiler/SymTab.py:20-21 | leaving fails only on an empty stack and otherwise drops the innermost scope |
| SymTab.EnterThenLeave | src/compiler/SymTab.py:17-21 | entering and then leaving a scope gives back the same table |
| SymTab.DefineVariable | src/compiler/SymTab.py:41-42 | defining binds the name to the value and type in the innermost scope and changes nothing else |
| SymTab.DefineThenLookup | src/compiler/SymTab.py:23-50 | after defining a name, lookup gives its value and its type, and every other name keeps its binding |
| SymTab.Shadowing | src/compiler/SymTab.py:17-42 | a definition in an entered scope disappears when that scope is left |
| SymTab.Innermost | src/compiler/SymTab.py:23-31 | the innermost scope holding the name, or none when no scope holds it |
| SymTab.Binding | src/compiler/SymTab.py:23-31 | a lookup finds the binding in the innermost scope holding the name and fails with "not found" otherwise |
| SymTab.LookupVariable | src/compiler/SymTab.py:23-31 | the value part of the innermost binding |
| SymTab.LookupVariableType | src/compiler/SymTab.py:44-50 | the type part of the innermost binding; it fails when the name is missing or holds no value-type pair |
| SymTab.UpdateVariable | src/compiler/SymTab.py:33-39 | updating fails exactly when no scope holds the name; it overwrites the entry in the innermost scope holding the name, with the bare value |
| SymTab.UpdateIsLocal | src/compiler/SymTab.py:33-39 | after an update the name looks up to the new value, and every other name keeps its binding |
| SymTab.UpdateLosesType | src/compiler/SymTab.py:37 | after an update, asking for the name's type fails |
| SymTab.UpdateVariableKeepingType | src/compiler/SymTab.py:33-39 | the corrected update changes only the innermost scope holding the name |
| SymTab.UpdateKeepsType | src/compiler/SymTab.py:33-50 | after the corrected update the name looks up to the new value and keeps its type |
| SymTab.DefineAll | src/compiler/SymTab.py:52-77 | defining a table of symbols fails only on an empty stack, and it touches only the innermost scope |
| SymTab.DefineAllBinds | src/compiler/SymTab.py:52-77 | each entry of a table with distinct names ends up bound to its value and type |
| SymTab.DefineAllKeeps | src/compiler/SymTab.py:52-77 | a name the table does not define keeps its earlier binding |
| SymTab.AddBuiltinSymbols | src/compiler/SymTab.py:52-77 | adding the built-ins fails only on an empty stack |
| SymTab.BuiltinNamesDistinct | src/compiler/SymTab.py:54-77 | the built-in names are all different |
| SymTab.BuiltinTypes | src/compiler/SymTab.py:54-77 | in a fresh table with the built-ins added, every built-in looks up to its value and its signature |
| IR.VarsOf | src/compiler/assembly_generator.py:72-91 | the IR variables of an instruction in field order, with a call's arguments in argument order |
| IR.Targets | src/compiler/ana_opt.py:59-65 | an instruction has jump targets exactly when it is a `Jump` or a `CondJump`, and at most two |
| IR.NumberOfNumbered | src/compiler/ir_generator.py:21-33 | the number in a generated name `x<n>` or `L<n>` can be read back |
| IRGenerator.InitialCounters | src/compiler/ir_generator.py:10-19 | the starting counters are consistent: the variable counter is at least 1 and every typed variable is `unit` or an already numbered one |
| IRGenerator.UnitVarUnnumbered | src/compiler/ir_generator.py:18-19 | the `unit` variable is never one of the numbered variables |
| IRGenerator.NewVar | src/compiler/ir_generator.py:21-27 | a new variable is numbered by the counter, is not yet typed, gets the given type, and moves only the variable counter on |
| IRGenerator.NewLabel | src/compiler/ir_generator.py:29-33 | a new label is numbered by the counter and moves only the label counter on |
| IRGenerator.NewElseLabel | src/compiler/ir_generator.py:60-91 | an else label is made exactly when the `if` has an else clause |
| IRGenerator.Visit | src/compiler/ir_generator.py:37-91 | a tree is translated only if it type-checks |
| IRGenerator.Generate | src/compiler/ir_generator.py:8-132 | a program is translated only if it type-checks |
| IRGenerator.PrintResult | src/compiler/ir_generator.py:127-132 | one print call is appended for an `Int` or `Bool` result, and none for `Unit` |
| IRGenerator.VisitSucceeds | src/compiler/ir_generator.py:39 | translation succeeds exactly when the tree type-checks |
| IRGenerator.GenerateSucceeds | src/compiler/ir_generator.py:8-132 | the whole program translates exactly when it type-checks |
| IRGenerator.VisitKeepsTypes | src/compiler/ir_generator.py:21-27 | the result variable has the tree's type; every new variable is fresh and earlier types are kept |
| IRGenerator.VisitAdvances | src/compiler/ir_generator.py:21-33 | translation creates at least one variable and never moves a counter backwards |
| IRGenerator.BinaryKeepsTypes | src/compiler/ir_generator.py:49-58 | a binary node's result variable has the node's type, and earlier types are kept |
| IRGenerator.IfKeepsTypes | src/compiler/ir_generator.py:60-91 | an `if` node's result variable has the node's type, and earlier types are kept |
| IRGenerator.IfBranchCounters | src/compiler/ir_generator.py:60-91 | the branches start after two labels, or three with an else clause, and after no new variable |
| IRGenerator.IfElseShape | src/compiler/ir_generator.py:60-91 | the condition, then branch and else branch are translated in that order, and the parts are laid out with their labels and jumps |
| IRGenerator.IfThenShape | src/compiler/ir_generator.py:60-91 | without an else clause, the condition and then branch are laid out with two labels |
| IRGenerator.VisitDisciplined | src/compiler/ir_generator.py:21-91 | every label is defined once, every jump goes to a label defined in the same code, and every variable is created once, all within the counters' range |
| IRGenerator.BinaryDisciplined | src/compiler/ir_generator.py:49-58 | a binary node keeps its operands' labels and variables unique and adds one fresh variable |
| IRGenerator.IfElseDisciplined | src/compiler/ir_generator.py:60-91 | an `if-else` node defines its three labels once and jumps only to them |
| IRGenerator.IfThenDisciplined | src/compiler/ir_generator.py:60-91 | an `if` without `else` defines its two labels once and jumps only to them |
| IRGenerator.GenerateDisciplined | src/compiler/ir_generator.py:8-132 | in the generated program, labels are unique, jumps are to defined labels, and created variables are unique |
| IRGenerator.VisitPrintsNothing | src/compiler/ir_generator.py:37-91 | translating a tree emits no print call |
| IRGenerator.BinaryPrintsNothing | src/compiler/ir_generator.py:49-58 | a binary node calls its operator and never a print function |
| IRGenerator.IfElsePrintsNothing | src/compiler/ir_generator.py:60-91 | an `if-else` node emits no print call |
| IRGenerator.IfThenPrintsNothing | src/compiler/ir_generator.py:60-91 | an `if` without `else` emits no print call |
| IRGenerator.PrintResultParts | src/compiler/ir_generator.py:127-132 | the final print is `print_int` for `Int` and `print_bool` for `Bool`; it gets the result variable as its one argument and creates one variable |
| IRGenerator.GeneratePrints | src/compiler/ir_generator.py:127-132 | a program prints at most once, with the print function its type picks; the print comes last, on the result of the tree's code |
| IRGenerator.BinarySucceeds | src/compiler/ir_generator.py:49-58 | a binary node translates whenever both operands type-check |
| IRGenerator.IfSucceeds | src/compiler/ir_generator.py:60-91 | an `if` node translates whenever its parts type-check |
| IRGenerator.VisitAdditionExample | tests/ir_generator_test.py:18-25 | `1 + 2` loads both literals and calls `+` into `x3` |
| IRGenerator.GenerateAdditionExample | tests/ir_generator_test.py:18-25 | the program for `1 + 2` is the three instructions the test lists, followed by `print_int` |
| IRGenerator.VisitIfExample | tests/ir_generator_test.py:37-53 | `if 1 < 2 then 3 else 4` gives the labelled code the test lists |
| IRGenerator.GenerateIfExample | tests/ir_generator_test.py:37-53 | that program ends with `print_int` of the `if` result |
| IRGenerator.GenerateBoolExample | tests/ir_generator_test.py:112-117 | the program for `true` loads it and calls `print_bool` |
| IRGenerator.GenerateRejectsUnitOperand | src/compiler/type_checker.py:15-32 | an `if` without `else` used as an operand of `+` is rejected, since its type is `Unit` |
| IRGenerator.VisitBinary | src/compiler/ir_generator.py:49-58 | a translated binary node ends with a call of its operator on two arguments into the node's result variable, and that variable is recorded with the node's type |
| IRGenerator.VisitIf | src/compiler/ir_generator.py:60-91 | a translated `if` has at least the five instructions of its jumps, labels and copy, seven with an else branch, and ends with a label (the end label); IRGenerator.IfElseShape and IRGenerator.IfThenShape give the exact layout |
| IRGenerator.CheckerAgreesWithBuiltins | src/compiler/SymTab.py:54-77 | every operator the checker accepts is a built-in whose signature takes two `Int` and returns the type the checker gives |
| AnaOpt.SplitPrefix | src/compiler/ana_opt.py:17-31 | every closed block is non-empty with a jump at most at its end, and the open block has no jump |
| AnaOpt.SplitIntoBasicBlocks | src/compiler/ana_opt.py:13-36 | every block is non-empty and has a jump only as its last instruction |
| AnaOpt.SplitKeepsInstructions | src/compiler/ana_opt.py:13-36 | the blocks, concatenated, are the input without its labels |
| AnaOpt.SplitRoundTrip | src/compiler/ana_opt.py:13-36 | when no two labels are adjacent and the code does not end in a label, putting each block's label back in front of it rebuilds the input |
| AnaOpt.SplitFromStraight | src/compiler/ana_opt.py:25-26 | instructions that are neither labels nor jumps join the current block |
| AnaOpt.SplitFromJumpLabel | src/compiler/ana_opt.py:19-31 | a jump closes the block, and a label right after it names the next block |
| AnaOpt.SplitFromLabel | src/compiler/ana_opt.py:19-22 | a label after instructions closes the block and starts a new one with that label |
| AnaOpt.SplitIfElseLayout | tests/ana_opt_test.py:40-56 | the code of any `if-else` with straight-line parts splits into four blocks: condition ending in the conditional jump, then, else and after |
| AnaOpt.SplitDropsTrailingLabel | src/compiler/ana_opt.py:33-34 | a label at the very end, after a jump, makes no block |
| AnaOpt.AddBlock | src/compiler/ana_opt.py:44-47 | the block is appended and its label gets an edge list; nothing else changes |
| AnaOpt.AddBlockNeighbours | src/compiler/ana_opt.py:44-47 | adding a block changes no label's edges |
| AnaOpt.AddEdge | src/compiler/ana_opt.py:49-53 | the blocks stay the same and the source label gets an edge list |
| AnaOpt.AddEdgeNeighbours | src/compiler/ana_opt.py:49-53 | adding an edge appends the target to the source label's edges and to no other label's |
| AnaOpt.AddBlockEdges | src/compiler/ana_opt.py:57-71 | one round of the loop fails exactly on a block without instructions, naming its position; otherwise the block is appended to the graph's blocks; AnaOpt.AddBlockEdgesNeighbours gives the edges it adds |
| AnaOpt.AddBlockEdgesNeighbours | src/compiler/ana_opt.py:57-71 | adding a non-empty block appends its reference successors to the edges of its label and leaves every other label's edges alone |
| AnaOpt.Successors | src/compiler/ana_opt.py:59-71 | the reference successors of a block: at most two; two exactly after a conditional jump; none only for an empty block or for a last block that does not end in a jump; the next block's label after any other last instruction |
| AnaOpt.BuildFlowgraph | src/compiler/ana_opt.py:55-73 | the graph is built exactly when every block has an instruction, and it holds the blocks in their order |
| AnaOpt.AddBlockEdgesStep | src/compiler/ana_opt.py:57-71 | one round of the loop succeeds exactly on a non-empty block and extends the graph built so far by that block |
| AnaOpt.BuildFlowgraphEdges | src/compiler/ana_opt.py:55-73 | the graph is built exactly when every block is non-empty; it keeps the blocks, has an edge list for every label, and each label's edges are the jump targets or the next label of the blocks carrying it, in order |
| AnaOpt.BuildFlowgraphUniqueLabel | src/compiler/ana_opt.py:55-73 | a label carried by one block only has that block's successors as its edges |
| AnaOpt.IfElseFlowgraph | src/compiler/ana_opt.py:55-73 | the four blocks of an `if-else` are linked: condition to then and else, then to after, else to after, and nothing from after |
| AnaOpt.AddDefinition | src/compiler/ana_opt.py:80-83 | the index is added to the variable's definition set; other variables are unchanged |
| AnaOpt.Merge | src/compiler/ana_opt.py:85-91 | every variable's definition set becomes the union of the two states' sets |
| AnaOpt.MergeIsLeastUpperBound | src/compiler/ana_opt.py:85-91 | the merge includes both states and is included in every state that includes both |
| AnaOpt.MergeCommutes | src/compiler/ana_opt.py:85-91 | merging in either order gives the same state |
| AnaOpt.MergeAssociates | src/compiler/ana_opt.py:85-91 | merging is associative |
| AnaOpt.MergeIdempotent | src/compiler/ana_opt.py:85-91 | merging a state with itself changes nothing |
| AnaOpt.MergeEmpty | src/compiler/ana_opt.py:75-91 | the empty state is neutral for merging |
| AnaOpt.AddDefinitionIsMerge | src/compiler/ana_opt.py:80-91 | adding a definition is merging in a one-entry state |
| AnaOpt.InitialStates | src/compiler/ana_opt.py:122-123 | every block label starts with the initial state on entry and on exit, and no other label has a state |
| AnaOpt.FoldExits | src/compiler/ana_opt.py:131-132 | merging the exit states of the listed labels fails exactly when one of them has no exit state |
| AnaOpt.EntryOf | src/compiler/ana_opt.py:130-132 | a block's entry state fails exactly when a label stored under its label has no exit state, and the error names that label; without edges it is the initial state |
| AnaOpt.PassFrom | src/compiler/ana_opt.py:129-139 | a pass fails only on a label without a state; a pass that reports no change leaves the exit states as they were; past the last block it changes nothing |
| AnaOpt.Analyze | src/compiler/ana_opt.py:125-139 | a finished analysis is at its fixed point: each entry state is the merge along the label's edges, and each exit state is the transfer of its entry state; exit states exist exactly for the block labels |
| AnaOpt.QuietPass | src/compiler/ana_opt.py:129-139 | a pass that changes no exit state leaves every block it visited at its fixed point |
| AnaOpt.StablePassIsQuiet | src/compiler/ana_opt.py:125-139 | at a fixed point, a pass changes nothing and reports no change |
| AnaOpt.PassKeepsExitKeys | src/compiler/ana_opt.py:137-139 | a pass updates only labels that already have an exit state |
| AssemblyGenerator.DedupSpec | src/compiler/assembly_generator.py:72-91 | removing repeats keeps each variable once, keeps the same variables, and keeps the order of first appearance |
| AssemblyGenerator.DedupOfDistinct | src/compiler/assembly_generator.py:72-91 | a list without repeats is kept as it is |
| AssemblyGenerator.GetAllIrVariables | src/compiler/assembly_generator.py:72-91 | the variables of the code, each once, in order of first appearance, are exactly the variables occurring in it |
| AssemblyGenerator.AddFields | src/compiler/assembly_generator.py:82-89 | the inner loop adds the unseen variables of one instruction, in order, and keeps the seen set in step |
| AssemblyGenerator.SlotOffsetOfSlotRef | src/compiler/assembly_generator.py:98-104 | a slot reference `-<n>(%rbp)` can be read back to its offset |
| AssemblyGenerator.SlotRefInjective | src/compiler/assembly_generator.py:98-104 | different offsets give different slot references |
| AssemblyGenerator.LocalsLayout | src/compiler/assembly_generator.py:98-114 | the i-th distinct variable gets slot `-(8 + 8i)(%rbp)`, every variable gets one, and the frame uses 8 bytes more than 8 per variable |
| AssemblyGenerator.LocalsDistinctSlots | src/compiler/assembly_generator.py:98-104 | different variables get different slots |
| AssemblyGenerator.LocalsWithinFrame | src/compiler/assembly_generator.py:98-114 | every slot is an 8-aligned offset inside the frame |
| AssemblyGenerator.GetRef | src/compiler/assembly_generator.py:107-110 | a reference is found only for a variable with a slot, and a missing one reports that variable |
| AssemblyGenerator.GetRefOfLayout | src/compiler/assembly_generator.py:98-110 | in a frame laid out for a list, a listed variable finds its slot and any other variable is unknown |
| AssemblyGenerator.GetRefs | src/compiler/assembly_generator.py:46-58 | looking up a list succeeds exactly when every variable has a slot, giving the slots in order, and otherwise reports a missing one |
| AssemblyGenerator.NewLocals | src/compiler/assembly_generator.py:98-104 | the frame uses at least 8 bytes and at most 8 bytes more than 8 per listed variable |
| AssemblyGenerator.Lower | src/compiler/assembly_generator.py:24-61 | only a supported instruction is lowered, into at least one line; a boolean load is an unknown instruction; a failed lookup names a variable of the instruction that has no slot |
| AssemblyGenerator.LowerAll | src/compiler/assembly_generator.py:23-61 | a lowered list has at least two lines per instruction, and every instruction in it is supported |
| AssemblyGenerator.Prologue | src/compiler/assembly_generator.py:19-21 | the intended prologue, with the two misspellings of the second Findings row corrected: three lines, the first saving the frame pointer, the second setting it, the third touching neither |
| AssemblyGenerator.Epilogue | src/compiler/assembly_generator.py:63-67 | five lines, `ret` the fourth; the second releases the frame and the third restores the frame pointer |
| AssemblyGenerator.GenerateAssembly | src/compiler/assembly_generator.py:7-69 | assembly is produced only when every instruction is supported, and it has at least the header, three prologue lines, two lines per instruction and five epilogue lines |
| AssemblyGenerator.GenerateAssemblyAsWritten | src/compiler/assembly_generator.py:7-69 | as written, assembly is produced only when every instruction is supported, with at least the header, three prologue lines, two lines per instruction and five epilogue lines; AssemblyGenerator.AsWrittenDiffersOnlyInPrologue relates it line by line to the corrected generator |
| AssemblyGenerator.LowerSucceeds | src/compiler/assembly_generator.py:24-61 | an instruction whose variables all have slots is lowered exactly when it is supported: not a boolean load, and any call is to a known intrinsic or to `print_int` |
| AssemblyGenerator.LowerAllSucceeds | src/compiler/assembly_generator.py:23-61 | lowering a list succeeds exactly when every instruction lowers, and otherwise fails with the first failure |
| AssemblyGenerator.EveryVariableHasSlot | src/compiler/assembly_generator.py:72-104 | every variable of every instruction has a stack slot in the frame built for the code |
| AssemblyGenerator.GenerateAssemblySucceeds | src/compiler/assembly_generator.py:13-69 | assembly is produced exactly when every instruction is supported, and it never fails on an unknown variable |
| AssemblyGenerator.GenerateAssemblyLayout | src/compiler/assembly_generator.py:13-69 | the output is the header, a prologue reserving 8 bytes more than 8 per variable, the lowered instructions and the epilogue |
| AssemblyGenerator.LowerEffects | src/compiler/assembly_generator.py:24-61 | the comment and the lines of one instruction jump and define labels exactly as the instruction does, and touch no frame pointer |
| AssemblyGenerator.LowerAllEffects | src/compiler/assembly_generator.py:23-61 | the lowered body follows the labels and jumps of the IR in order |
| AssemblyGenerator.HeaderEffects | src/compiler/assembly_generator.py:13-18 | the header has no control effect |
| AssemblyGenerator.PrologueEffects | src/compiler/assembly_generator.py:19-21 | the corrected prologue saves and sets the frame pointer; the prologue as written does neither |
| AssemblyGenerator.EpilogueEffects | src/compiler/assembly_generator.py:63-67 | the epilogue releases the frame, restores the frame pointer and returns |
| AssemblyGenerator.GenerateAssemblyEffects | src/compiler/assembly_generator.py:13-69 | the program saves and sets the frame pointer, follows the IR's control flow, then releases the frame, restores the frame pointer and returns |
| AssemblyGenerator.ControlKeepsFrame | src/compiler/assembly_generator.py:24-61 | no IR instruction saves the frame pointer |
| AssemblyGenerator.AsWrittenPopsUnsavedFrame | src/compiler/assembly_generator.py:19-20 | under the effect reading of each line, the two misspelled prologue lines have no effect, so the epilogue's restore of the frame pointer has no matching save; this describes the listing, since an assembler rejects it |
| AssemblyGenerator.AsWrittenDiffersOnlyInPrologue | src/compiler/assembly_generator.py:19-20 | the version as written and the corrected one succeed on the same programs and differ only in the first two prologue lines |
| Pipeline.GenerateIfElseProgram | tests/ir_generator_test.py:37-53 | the IR of `if 1 < 2 then 3 else 4` is the listed program |
| Pipeline.SplitIfElseProgram | src/compiler/ana_opt.py:13-36 | that program splits into four blocks: the unlabelled condition and the blocks labelled `L1`, `L2` and `L3` |
| Pipeline.IfElseProgramFlowgraph | tests/ana_opt_test.py:54-56 | its flow graph is built; the first block has no label and ends in a conditional jump |
| Pipeline.IfElseProgramControl | src/compiler/ir_generator.py:60-91 | its control flow is: branch to `L1`, jump to `L2`, `L1`, jump to `L3`, `L2`, `L3` |
| Pipeline.IfElseProgramAssembly | src/compiler/assembly_generator.py:13-69 | its assembly is produced and, under the effect reading of each line, lists a prologue, that control flow, then an epilogue |
| Pipeline.LowerSupported | src/compiler/assembly_generator.py:13-69 | any supported program is lowered, and its assembly follows its control flow inside the frame |

## Left out

- The tokenizer is not part of this model. The parser takes a token list.
- The IR modules and the intrinsics module are not part of this model. The generator builds instructions from `src.compiler.ir` (ir_generator.py:1, 3), while the splitter and the assembly generator test against `src.model.ir` (ana_opt.py:1, assembly_generator.py:3). The model assumes the two modules define the same classes, and the module `IR` stands for both. If they differed, `isinstance` would recognise no generated instruction: the splitter would find no labels or jumps, `generate_assembly` would report every instruction unknown, and no variable would be collected; every Pipeline lemma rests on this assumption. `IR` uses the instruction shapes that the generator and its tests show. The intrinsic emitters are a parameter mapping an operator to its lines. `str(insn)` in the comment line is a parameter too.
- `"\n".join` of the assembly lines: the model returns the list of lines.
- The reaching-definitions pass (ana_opt.py:93-114) is left out. It calls `isinstance` with one argument, so it fails on the first instruction. The `ProgramState` operations it uses are modelled.
- The transfer-function stub (ana_opt.py:141-144) is left out; it is empty.
- AnaOpt.Analyze: the loop of ana_opt.py:125-139 can run forever. The method takes a budget of passes and returns `OutOfFuel` when the budget is spent, so only finished runs are described.
- Interpreter: `/` evaluates to an error, because the source divides in floating point. Interpreter.Soundness is stated for `/`-free trees.
- The `Identifier`, `Block`, `VarDecl` and `FunctionCall` cases of the IR generator (ir_generator.py:46-47, 93-122) are left out. The checker rejects these nodes before they are reached.
- The `print` calls for debugging are left out; they only write output.
- `SymTab`'s `parent` and `symbols` fields are left out; nothing reads them.
- The built-in operator values are kept as names, not Python lambdas.
- Decimal.ParseNat reads digit strings only. `int()` also accepts a sign, underscores and surrounding whitespace, which no integer-literal token contains.
- SymTab.LookupVariableType treats any entry that is not a value-type pair as the error `NotAPair`. Python would unpack any two-element iterable.
- IRGenerator.Visit and IRGenerator.Generate use the corrected checker `TypeChecker.Typecheck`, which types boolean literals `Bool` (first Findings row). With the checker as written, a `true` literal would be typed `Int` and the program would end with `print_int` (ir_generator.py:129-130). IRGenerator.GenerateBoolExample shows the corrected behaviour.
- The IR generator calls `typecheck(node, symtab)` with two arguments, but `typecheck` takes one (type_checker.py:5), so the call as written raises `TypeError`. The model calls the checker with the tree alone.
- The check `str(var_types[v]) == 'Int'` is modelled as type equality.
- Labels are sometimes `Label` objects and sometimes their `.name` strings. The model uses `Option<string>` throughout; `None` is the unlabelled first block.
- AnaOpt.Analyze: the source's `analyze` fails at ana_opt.py:132 whenever a block's stored edges include a jump target. `build_flowgraph` stores Jump and CondJump targets as `.name` strings (ana_opt.py:62, 64-65), but `exit_states` is keyed by `block.label`, a `Label` object (ana_opt.py:123), so `self.exit_states[pred_label]` raises `KeyError`; the if-else program is such a graph. The model keys everything by name, so the analysis of such a graph finishes. The module defining `Label` is not part of this model.
- `basic_blocks.index(block)` is modelled as the block's position. The two agree when no two blocks are equal.
- Lowering `LoadIntConst` of a boolean gives `movq $True`, as the source does.
- `LoadBoolConst` has no case in the generator, so it lowers to the unknown-instruction error.
- SymTab.AddBuiltinSymbols, IRGenerator.Generate and IRGenerator.PrintResult assume the type classes of src/model/types.py throughout. SymTab.py and ir_generator.py import `Int`, `Bool` and `Unit` from src/compiler/types.py, where they are `BasicType` values, not classes. So `Int()`, `Bool()`, `types.Bool()` (SymTab.py:54-77) and `Unit()`, `Int()` (ir_generator.py:19, 130, 132) raise `TypeError`. `str(var_types[v])` would also never equal `'Int'` or `'Bool'`. SymTab.py also imports `FunctionType` from that module, which lacks it. The model returns no error for any of these, because the evident intent is the class-based types.
- SymTab.LookupVariable: `lookup_variable` returns the first element of any stored tuple (SymTab.py:27-28). After `update_variable(name, (a, b))` the source returns `a`. The model returns the stored value whole, because its values are not tuples.
- IRGenerator.GenerateRejectsUnitOperand: tests/ir_generator_test.py:80-98 expects `1 + if 2 < 3 then 4 * 5` to translate into ten instructions. The checker the generator calls rejects it: an `if` without `else` is `Unit` (type_checker.py:30-32), and `+` needs two `Int` operands (type_checker.py:15-18). The model follows the code, not the test.
- `CaseExpr` is not modelled.

## Findings

| source | as written | input that shows it | evidently intended | confidence | as-written member | corrected member |
|---|---|---|---|---|---|---|
| src/compiler/type_checker.py:8-9 | a literal is `Int` when `isinstance(value, int)`; Python's `bool` is a subclass of `int`, so `true` is typed `Int` | the hand-built tree `IfExpression(Literal(True), Literal(42), Literal(43))`: the condition is typed `Int` and the program is rejected, though tests/ir_generator_test.py:136-152 expects it to translate. From source text the tree cannot be reached, because the parser does not accept the boolean-literal token (parser.py:59-67) | boolean literals have type `Bool` | not executed | TypeChecker.TypecheckAsWritten, Interpreter.AsWrittenCheckerIsUnsound | TypeChecker.Typecheck, Interpreter.Soundness |
| src/compiler/assembly_generator.py:19-20 | the prologue lines read `pusbq %rbp` and `movq %rsp, %r bp` | any program: `pusbq` is not an x86-64 instruction and `%r bp` is not a register, so every generated file fails to assemble at the prologue | `pushq %rbp` and `movq %rsp, %rbp` | not executed | AssemblyGenerator.AsWrittenPopsUnsavedFrame | AssemblyGenerator.GenerateAssemblyEffects |
| src/compiler/SymTab.py:37 | `update_variable` stores the bare value in place of the value-type pair | define `x` with a type, update `x`, then ask for its type: the lookup fails | the update keeps the variable's type | not executed | SymTab.UpdateVariable, SymTab.UpdateLosesType | SymTab.UpdateVariableKeepingType, SymTab.UpdateKeepsType |
