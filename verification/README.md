# Verified model of the RuC compiler

RuC compiles a C-like language to the code of a flat-memory stack machine.  This
project models five connected parts of the compiler in `libs/compiler` and proves
what they are for:

- **the code generator** (`codegen.c`): one pass over the tree, with unresolved
  jumps and calls threaded as linked lists through the code being emitted;
- **the expression parser** (`parser.c`, `operations.c`): precedence climbing;
- **the type table** (`syntax.c`): one flat vector of records in which no record is
  kept twice;
- **the table of identifiers** (`syntax.c`): scopes through links between entries
  that are never removed;
- **constant folding** (`builder.c`).

`dafny verify dfyconfig.toml` checks all of it.

## How the proofs are layered

Code that works by changing things is a class here: `Encoder`, `CallEncoder`,
`Parser`, `IdentTable` and `TypeTable` have the fields of the program, and their
methods have its loops.  Each method is proved against a function, and the results
are lemmas about the functions.

*Code generation.*  `Codegen` is a compiler that knows every jump target; its output
is a sequence of cells, some of them holes.  `Threading`, `Patching`, `Emitting` and
`EmissionRules` say what unfinished code looks like in memory, `Lists` what the
lists in it hold, and `Encoder` is proved to leave exactly that, for every statement,
including labels that stand anywhere inside loops.  `Machine` gives the instructions a meaning and
`ExprCorrect`, `Standing` and `StmtCorrect` prove that finished code behaves as
`Semantics` says: same variables, same stack, faults at undefined operations, and
no end when the source has none.  `StackNeutral` says what they leave on the operand
stack.  `IsoC`, `IsoCorrect` and `FallThrough` compare `Semantics` with
ISO/IEC 9899:2011.  `Allocation`, `FrameBounds` and `Renaming` go from names to
cells, and `SourceToCode.FunctionMeansSource` joins the chain: what the standard
says about the source of a function is what its emitted code does.  `ProgramRuns`
does the same for a whole program up to the call of main.  `Calls` and
`CallRuns` treat calls of functions that are not defined yet, over runs of all the
writes of the encoder, and `SharedMemory` proves that the emission of statements is
such a run.  `Members` has the cells of structure members, and `Decode`, `WellFormed`, `WellFormedStatements` and `Disassembly` show
that the listing of a program shows its instructions.

*Parsing.*  `Grammar` has the routines as total functions; `Notation` states the
operator grammar without a parser, by concrete trees that keep their parentheses.
`ParserReads` and `ParserSound` prove the two equal, `Printer` adds the shortest
spelling and the round trip.  That the mutually recursive routines end on every
token sequence, valid or not, is part of their definitions: each has a measure of
the tokens left and a rank.  `Recovery` says where it goes on after an error.
`TreeMeaning` gives trees a meaning and types of their own, by the way operators are
written, and proves that the builder keeps them; `Folding`, `Typing` and `Pipeline`
continue to code.

*Tables.*  `ScopeStack` and `Scoping` prove the table of identifiers equal to a stack
of maps, and `ScopeCells` that its variables never overlap; `Types`, `TypeMeaning` and
`TypeRequests` prove that comparing types by their index is comparing types.

## What is assumed

The virtual machine is not in the repository.  `Machine` is an assumption: names and
codes of instructions come from `instructions.h`, numbers of operands from the
disassembler in `writer.c`; values are 64-bit words, an arithmetic result that does
not fit, a division by zero and a bad shift stop the machine, a `RETURN` ends
the run of a function, and the header of a function is passed over to the address
that it holds.  `item_t` is taken to be 64 bits wide.  Vectors, maps and
trees of the utility library are sequences, maps and datatypes.

## Where the code departs from the language

Each of these is kept as the code has it, and has a lemma.

- `||` that short-circuits leaves its left operand, not 1 (`IsoC.OrExactly`).
- A switch keeps its selector on the stack, one for every time it is entered
  (`StackNeutral.LeavesExactly`, `StackNeutral.StackGrows`).
- A group that falls into a case label is tested against it.  What runs is what the
  standard runs without the case groups that follow; falling into default agrees
  (`FallThrough.PlainExactly`, `IsoCorrect.FallThroughDiffers`).
- A default label that stands before the label of the value is entered first
  (`FallThrough.ChosenExactly`, `FallThrough.DefaultFirstDiffers`).
- `%=`, `<<=`, `>>=`, `&=`, `^=`, `|=` as statements leave their value on the stack
  (`StackNeutral.OthersNeverDrop`, `StackNeutral.StatementRuns`).
- The last instruction of an expression statement is found by comparing the last
  cell with 9000; a larger displacement or call link is taken for an instruction, so
  a statement works on another variable (`StackNeutral.LargeOperand`), or a list of
  calls is broken and its definition misses them or never ends
  (`CallRuns.ForwardCallsExactly`, `CallRuns.FarCallsHang`, `CallRuns.FarCallsLost`).
- Skipping tokens after an error takes a bracket that lies right inside one of its own
  kind for the end of both (`Recovery.SkipScans`, `Recovery.NestedEndsBoth`).
- The left operand of an assignment may be any conditional expression for the parser;
  the builder refuses it later.  The middle of `?:` is an assignment expression.
- A binary operator with a character literal on its left is never folded, so
  `'a' + 1` is not a constant expression and `1 + 'a'` is
  (`Folding.ConstantExactly`).
- const versions of all built-in types other than int share one record
  (`Types.ConstConfused`).
- A definition whose function number or type index has reached 1000 is not taken for a
  function: its prototype stays on the list and the program is refused
  (`Scoping.DefinitionUnlists`, `Scoping.CompleteExactly`,
  `Scoping.LateDefinitionStaysListed`).  So is a program with a prototype of main.

## Model

| member | source | states |
|---|---|---|
| `Encoder.Encoder.AddrBeginCondition` | libs/compiler/codegen.c:267-275 | walks the list of waiting continues down to the start of the loop, and leaves the memory that `Repoint` describes: every cell of the list holds the loop start |
| `Encoder.Encoder.AddrEndCondition` | libs/compiler/codegen.c:277-285 | every waiting continue gets the next address; the list is then empty |
| `Encoder.Encoder.AddrEndBreak` | libs/compiler/codegen.c:287-295 | every waiting break gets the next address; the list is then empty |
| `Patching.RepointExactly` | libs/compiler/codegen.c:267-295 | a patching walk ends (links strictly decrease) and changes exactly the cells of its own list, each to the target |
| `Patching.ChainFrame` | libs/compiler/codegen.c:267-295 | a write above the head of a list leaves the list and its set of cells as they are |
| `Patching.RepointThread` | libs/compiler/codegen.c:267-295 | walking the list of one kind of unfinished jump through emitted code gives, cell for cell, the code in which those jumps have their target; the other list, threaded through the same cells, is untouched |
| `Patching.PatchAfter` | libs/compiler/codegen.c:267-295 | the same for a whole emission state with its three list heads: only the walked head changes |
| `Threading.ThreadJoin` | libs/compiler/codegen.c:1799-1927 | code emitted in two parts is threaded as one piece whose links run through both |
| `Threading.LastIsLast` | libs/compiler/codegen.c:1799-1927 | a list head is the last unfinished cell of its kind, or the head from before |
| `Threading.AfterJoin` | libs/compiler/codegen.c:1675-1791 | emitting one piece after another is emitting their composition, with a case test of the first waiting for the first label of the second |
| `Lists.EmissionKeepsLists` | libs/compiler/codegen.c:267-295 | over the emission of any code both list heads start strictly decreasing lists of distinct cells; each holds exactly its old cells and the unfinished jumps of the new code, the two share no cell, and the waiting case test is in neither |
| `Lists.StatementKeepsLists` | libs/compiler/codegen.c:1719-2018 | the same for any statement |
| `Lists.SavedListsApart` | libs/compiler/codegen.c:1799-1903 | lists set aside by a loop keep their cells while its own lists grow, and never share one with them |
| `Emitting.TidyCode` | libs/compiler/codegen.c:1675-1711 | at every moment at most one case test waits for a label, and only inside code that has a label |
| `EmissionRules.EmitsIf` | libs/compiler/codegen.c:1739-1761 | the writes of a conditional, in the order of the encoder, leave the two-pass code |
| `EmissionRules.EmitsIfElse` | libs/compiler/codegen.c:1739-1761 | the same with an else branch whose labels the first branch may be waiting for |
| `EmissionRules.EmitsWhile` | libs/compiler/codegen.c:1799-1823 | saving, resetting, walking and restoring the list heads around a while loop leaves the two-pass code and the outer lists |
| `EmissionRules.EmitsDo` | libs/compiler/codegen.c:1831-1853 | the same for a do loop |
| `EmissionRules.EmitsFor` | libs/compiler/codegen.c:1861-1903 | the same for a for loop with any of its parts missing |
| `EmissionRules.EmitsSwitch` | libs/compiler/codegen.c:1769-1791 | the same for a switch, whose last waiting case test goes to the end |
| `EmissionRules.EmitsCase` | libs/compiler/codegen.c:1675-1693 | a case label patches the waiting test, and its own test then waits |
| `EmissionRules.EmitsDefault` | libs/compiler/codegen.c:1701-1711 | a default label patches the waiting test and leaves none waiting |
| `Encoder.Encoder.DisplacementsAdd` | libs/compiler/codegen.c:165-189 | gives out the next cells of the frame, or of the globals downwards, and records the largest frame so far, for a variable that is not a function |
| `Encoder.Encoder.EmitExpression` | libs/compiler/codegen.c:1244-1295 | one-pass emission of an expression over integer variables equals the code of the two-pass compiler at that address |
| `Encoder.Encoder.EmitBinary` | libs/compiler/codegen.c:1093-1133 | the same for binary operators, with the exit of `&&` and `||` reserved and set later |
| `Encoder.Encoder.EmitTernary` | libs/compiler/codegen.c:1141-1160 | the same for `?:`, with both jumps reserved and set later |
| `Encoder.Encoder.EmitVoid` | libs/compiler/codegen.c:1303-1320 | the last instruction is replaced by its version without a result, where the last cell shows it to be |
| `Encoder.Encoder.EmitVariableDeclaration` | libs/compiler/codegen.c:1449-1486 | an integer declaration stores its initializer; a structure without initializer emits nothing |
| `Encoder.Encoder.EmitDeclarationStatement` | libs/compiler/codegen.c:1659-1667 | a list of declarators, each allocated before its initializer |
| `Encoder.Encoder.EmitCase` | libs/compiler/codegen.c:1675-1693 | one-pass emission of a case label refines the two-pass compiler |
| `Encoder.Encoder.EmitDefault` | libs/compiler/codegen.c:1701-1711 | one-pass emission of a default label refines the two-pass compiler |
| `Encoder.Encoder.EmitCompound` | libs/compiler/codegen.c:1719-1731 | a block refines the two-pass compiler and gives the allocator back its entry point |
| `Encoder.Encoder.EmitIf` | libs/compiler/codegen.c:1739-1761 | a conditional refines the two-pass compiler |
| `Encoder.Encoder.EmitSwitch` | libs/compiler/codegen.c:1769-1791 | a switch refines the two-pass compiler; outer breaks and case tests wait as before |
| `Encoder.Encoder.EmitWhile` | libs/compiler/codegen.c:1799-1823 | a while loop refines the two-pass compiler; outer lists are restored |
| `Encoder.Encoder.EmitDo` | libs/compiler/codegen.c:1831-1853 | a do loop refines the two-pass compiler; outer lists are restored |
| `Encoder.Encoder.EmitFor` | libs/compiler/codegen.c:1861-1903 | a for loop refines the two-pass compiler; outer lists and the allocator are restored |
| `Encoder.Encoder.EmitContinue` | libs/compiler/codegen.c:1910-1915 | adds one cell to the list of continues |
| `Encoder.Encoder.EmitBreak` | libs/compiler/codegen.c:1922-1927 | adds one cell to the list of breaks |
| `Encoder.Encoder.EmitReturn` | libs/compiler/codegen.c:1935-1951 | return without a value, and with a value of one cell |
| `Encoder.Encoder.EmitStatement` | libs/compiler/codegen.c:1959-2018 | every statement in every context: memory, list heads and allocator are those of the two-pass compiler |
| `Encoder.Encoder.EnterFunction` | libs/compiler/codegen.c:1590-1599 | parameters take the first cells of a fresh frame |
| `Encoder.Encoder.EmitFunctionDefinition` | libs/compiler/codegen.c:1590-1613 | once the function is numbered, the memory grows by exactly its finished code; its header holds the largest frame and the address after it; no list head changes |
| `Encoder.Encoder.EmitUnit` | libs/compiler/codegen.c:1621-1641 | a file-level declaration |
| `Encoder.Encoder.EmitTranslationUnit` | libs/compiler/codegen.c:2026-2041 | the memory grows by the code of all declarations in order, then the call of main and a stop |
| `Confinement.ConfinedCode` | libs/compiler/parser.c:1707-1747 | where the parser lets `break`, `continue` and labels stand, code of a statement has no jump or label that its context does not close |
| `Confinement.ConfinedExactly` | libs/compiler/parser.c:1707-1747 | and only there: the rules of the parser hold of a statement if and only if its code has nothing that its context does not close |
| `Confinement.EmitsFinished` | libs/compiler/codegen.c:1799-1927 | a statement that keeps its jumps to itself leaves finished code, the lists as they were, and every earlier cell unchanged |
| `Functions.ConfinedResolved` | libs/compiler/codegen.c:165-189 | allocation does not move jumps or labels |
| `ExprCorrect.ExprRuns` | libs/compiler/codegen.c:1025-1295 | the code of any expression pushes exactly its value, makes its updates in order, leaves the rest of the stack alone and ends behind its code; where an operation is undefined the machine stops there |
| `ExprCorrect.VoidRuns` | libs/compiler/codegen.c:1303-1320 | code of an expression statement leaves on the stack exactly what the meaning says, usually nothing |
| `ExprCorrect.DropsAll` | libs/compiler/instructions.c:167-175 | expressions whose last instruction has a version without a result leave nothing |
| `StmtCorrect.StmtRuns` | libs/compiler/codegen.c:1719-2018 | finished code of any statement, in any nesting, run from its first address, ends at its end or at the enclosing exit or continue point with the variables and stack of the big-step meaning, faults exactly where it is undefined, and outruns any number of steps when it does not end |
| `StmtCorrect.LoopRuns` | libs/compiler/codegen.c:1799-1903 | the same for the turns of a loop |
| `StmtCorrect.DoRuns` | libs/compiler/codegen.c:1831-1853 | the same for a do loop |
| `StmtCorrect.ForRuns` | libs/compiler/codegen.c:1861-1903 | the same for a for loop |
| `StmtCorrect.SwitchRuns` | libs/compiler/codegen.c:1769-1791 | the same for a switch, with the selector left on the stack |
| `StmtCorrect.ItemsRun` | libs/compiler/codegen.c:1675-1711 | dispatch among the groups of a switch, each case test falling to the next label |
| `StmtCorrect.LabelsAhead` | libs/compiler/codegen.c:1675-1711 | where a failed case test goes is the next case or default label of the same switch |
| `Compile.FunctionRuns` | libs/compiler/codegen.c:1585-1613 | the code of a function, wherever it lies, returns what its body returns, faults where it faults and runs on while it runs |
| `Compile.JumpsInside` | libs/compiler/parser.c:1707-1747 | no break or continue leaves the body of a function |
| `StackNeutral.StatementRuns` | libs/compiler/codegen.c:1303-1320 | the code of any expression statement, whatever its displacements and literals: it leaves nothing if and only if it is a lone variable, or the path its evaluation takes (the values of conditions in a tail `?:` decide) ends in an instruction that has a version without a result and an operand below 9000; otherwise it leaves one value, that of the expression whose last operand is 200 higher if it lay in a void range |
| `StackNeutral.LargeOperand` | libs/compiler/codegen.c:1303-1320 | with a last operand of 9000 or more, the code of a statement is that of the expression whose last operand went through the table of instructions |
| `StackNeutral.DropExactly` | libs/compiler/codegen.c:1303-1320 | an assignment that is a statement gets the instruction without a result if and only if it is `=`, `+=`, `-=`, `*=` or `/=` and its displacement is below 9000 |
| `StackNeutral.StepDropExactly` | libs/compiler/codegen.c:1303-1320 | `++` and `--` as statements get it if and only if the displacement is below 9000 |
| `StackNeutral.OthersNeverDrop` | libs/compiler/instructions.c:167-175 | `%=`, `<<=`, `>>=`, `&=`, `^=` and `|=` keep their result on the stack as statements, for every displacement; one in a void range is replaced by another, and exactly then the code changes |
| `StackNeutral.LeavesExactly` | libs/compiler/codegen.c:1719-2018 | however a statement ends, above the old stack lie exactly the selectors of the switches entered and the values of expression statements not dropped, in the order of the run, the last on top; switches nested in switches and in loops included |
| `StackNeutral.NothingExactly` | libs/compiler/codegen.c:1719-2018 | a statement leaves the stack as it was if and only if its run keeps nothing |
| `StackNeutral.KeepsSelectors` | libs/compiler/codegen.c:1719-2018 | where every expression statement drops its value, only selectors are kept |
| `StackNeutral.LeavesNothing` | libs/compiler/codegen.c:1719-1927 | without a switch such a statement leaves the stack as it was |
| `StackNeutral.SwitchLeavesSelector` | libs/compiler/codegen.c:1769-1791 | after any switch its selector lies on the old stack, below everything its groups kept |
| `StackNeutral.StackGrows` | libs/compiler/codegen.c:1769-1823 | a switch in a loop leaves one more cell with every turn: `while (x) { switch (x) {} x--; }` leaves the values from x down to 1 |
| `IsoC.ExactSame` | libs/compiler/codegen.c:1093-1133 | generated code and section 6.5 of ISO/IEC 9899:2011 give one value, where `||` is used as a number only over 0 and 1 |
| `IsoC.TruthSame` | libs/compiler/codegen.c:1093-1133 | where only truth matters they agree up to truth value, with the same updates |
| `IsoC.OrExactly` | libs/compiler/codegen.c:1105-1131 | a single `||` yields the value of the standard if and only if its left operand is 0 or 1 |
| `IsoC.OrDiffers` | libs/compiler/codegen.c:1105-1131 | `(5 || 0) == (1 || 0)` is the input that shows the difference |
| `IsoCorrect.CarefulSame` | libs/compiler/codegen.c:1675-2018 | on careful programs (one literal label to a group, default last, no group falls into a case label behind which something is executed; falling into default is fine) every run of the generated code is the run of section 6.8 of the standard, including loops that never end |
| `IsoCorrect.SelectSame` | libs/compiler/codegen.c:1675-1693 | the chain of case tests runs the group whose label equals the selector, else default, else nothing, and goes on into default as the standard does |
| `IsoCorrect.FallThroughDiffers` | libs/compiler/codegen.c:1675-1693 | a group that falls into a case label with something to execute is an input on which the two differ |
| `FallThrough.ItemsAreGroups` | libs/compiler/codegen.c:1675-1711 | for labels that are literals, one to an item, in any order: the code runs the items as the standard does, but where control falls into a case label that differs from the value on top of the stack it goes on at a later label |
| `FallThrough.ChosenExactly` | libs/compiler/codegen.c:1675-1711 | the code enters the group that the standard chooses if and only if nothing stands before the first label and no default label before the label of the value |
| `FallThrough.PathsExactly` | libs/compiler/codegen.c:1675-1711 | from the entered item on, the code runs the very items that the standard runs if and only if control never falls into a case label that differs from the value on top of the stack |
| `FallThrough.SwitchExactly` | libs/compiler/codegen.c:1675-1791 | a switch that enters the right group runs as the standard says if and only if its run never falls into a label that stops it, or the code from there on comes to the same |
| `FallThrough.PlainExactly` | libs/compiler/codegen.c:1675-1791 | with distinct labels, default last, and groups that leave nothing on the stack: the run is that of the standard if and only if the chosen group does not fall into a case label, or running the case groups from there comes to the same as running the default group alone |
| `FallThrough.DefaultFirstDiffers` | libs/compiler/codegen.c:1701-1711 | a default label before the label of the value is an input on which the code enters the wrong group |
| `Allocation.DeclSound` | libs/compiler/codegen.c:165-189 | a new variable shares no cell with any variable in scope |
| `Allocation.AllocationSound` | libs/compiler/codegen.c:1719-1731 | after every statement the variables in scope, with a value yet or without, lie apart, inside the cells given out, and none has moved |
| `Allocation.LeaveSound` | libs/compiler/codegen.c:1719-1731 | leaving a block gives the allocator its entry point back and keeps what is still in scope |
| `FrameBounds.FrameBounds` | libs/compiler/codegen.c:1585-1613 | at every point inside a function all of this holds, and the size in its header bounds every cell given out |
| `FrameBounds.FrameExactly` | libs/compiler/codegen.c:1585-1613 | a bound holds at every point of a function if and only if it is at least the size that the allocator arrives at |
| `Frames.DeclaredInOrder` | libs/compiler/codegen.c:165-189 | declared variables lie one behind the other in the order of their declarators, upwards in a function and downwards outside, and the next one goes behind them |
| `Frames.AllocatesDirect` | libs/compiler/codegen.c:1719-1731 | a statement takes exactly the cells it declares directly; blocks and for loops give theirs back |
| `Functions.ParameterCells` | libs/compiler/codegen.c:1590-1597 | parameter k lies at cell 3 and the cells of the parameters before it, and the body goes on behind them |
| `Renaming.ExprRenames` | libs/compiler/codegen.c:475-483 | an expression over names and the same over displacements have one value and corresponding updates |
| `Renaming.EffectRenames` | libs/compiler/codegen.c:475-483 | the same for an expression statement that gives variables their first value |
| `Renaming.Renames` | libs/compiler/codegen.c:1719-2018 | a statement over names in scope and the same over cells end alike, with every variable that has a value equal, although blocks reuse cells |
| `SourceToCode.OrderlyStructured` | libs/compiler/codegen.c:1303-1320 | in a frame of at most 9000 cells no operand is taken for an instruction |
| `SourceToCode.CarefulResolved` | libs/compiler/codegen.c:1719-2018 | allocation keeps a program careful |
| `SourceToCode.EntrySound` | libs/compiler/codegen.c:1590-1599 | parameters lie apart from each other and from the globals |
| `SourceToCode.FunctionMeansSource` | libs/compiler/codegen.c:1585-1613 | end to end: the emitted code of a function over named variables, each given a value before it is read, does what ISO/IEC 9899:2011 says its source does: result, variables in scope, faults and divergence |
| `ProgramRuns.FunctionPassed` | libs/compiler/codegen.c:1599-1612 | the header of a function leads in one step to the cell behind its last return |
| `ProgramRuns.HeaderExactly` | libs/compiler/codegen.c:1610 | the size in the header is the least that bounds the cells given out at every point of the body |
| `ProgramRuns.GlobalCells` | libs/compiler/codegen.c:165-189 | variables at file level lie one behind the other from the cell -3 downwards |
| `ProgramRuns.ProgramPasses` | libs/compiler/codegen.c:1621-1641 | run from its first instruction, the memory of a program comes in turn behind each of its declarations, past the last return of every function, with the variables at file level that the standard gives there; it faults where an initializer is undefined |
| `ProgramRuns.ProgramRuns` | libs/compiler/codegen.c:2026-2041 | the run of a whole program executes the initializers of the variables at file level in source order, those without one being 0, and arrives at the call of main |
| `CallRuns.StartOk` | libs/compiler/codegen.c:317-322 | the encoder before anything is emitted is in order |
| `CallRuns.StepKeeps` | libs/compiler/codegen.c:212-264 | every write of the encoder (an instruction with final or open operands, setting an open operand, the void drop, a declaration, a call, a definition) keeps, for every prototype, the calls in order with what their operands hold: the call before, or that address taken for an instruction if the call was dropped; no other cell is mistaken for one of them |
| `CallRuns.CallKeeps` | libs/compiler/codegen.c:241-264 | a call of a function without a number becomes the head of the list of its prototype |
| `Calls.WritesExactly` | libs/compiler/codegen.c:212-231 | the walk of a definition, over whatever the cells hold, ends and writes exactly the calls of the prototype if and only if no dropped call had a link in a void range |
| `Calls.ListExactly` | libs/compiler/codegen.c:212-264 | the links from the head are a list of exactly the calls under the same condition |
| `CallRuns.IntactExactly` | libs/compiler/codegen.c:1303-1320 | over any run the condition holds if and only if no expression statement ended in such a call while its link was at least 9000 and in a void range |
| `CallRuns.RunLists` | libs/compiler/codegen.c:212-264 | after any run the list of a prototype is exactly the calls made of it if and only if no expression statement ended in such a call with such a link |
| `CallRuns.ForwardCallsExactly` | libs/compiler/codegen.c:212-264 | the definition that follows any run ends and writes exactly the calls made of its prototype, under the same condition and no other, for function numbers below 9000 |
| `CallRuns.ForwardCallsResolve` | libs/compiler/codegen.c:212-264 | under that condition every call made of the prototype then holds the number of the function, and every other cell is unchanged |
| `CallRuns.ResolvedStay` | libs/compiler/codegen.c:212-264 | and keeps it to the end of the program |
| `CallRuns.TableExactly` | libs/compiler/codegen.c:212-215 | after any run the table of functions holds, in order, the sizes that the memory had when functions were defined |
| `CallRuns.FunctionFound` | libs/compiler/codegen.c:212-231 | to the end of the program a defined function has a number that indexes its own entry, and the entry is the address of its header |
| `CallRuns.CallsFind` | libs/compiler/codegen.c:212-231 | every call that was made of its prototype leads through the table to that header |
| `Calls.CallStatementExactly` | libs/compiler/codegen.c:1303-1320 | a call that is a statement keeps its operand, link or number, if and only if the operand is below 9000 or has no version without a result |
| `CallRuns.FarCallsHang` | libs/compiler/codegen.c:212-231 | the input that fails: from the empty encoder, 9002 cells of code, a call and a call that is a statement; its link 9007 becomes 9207, and the definition walks out of the memory and never ends |
| `CallRuns.FarCallsLost` | libs/compiler/codegen.c:212-231 | if the code goes on past cell 9207 first, the walk ends there: the first call is never resolved and another operand is overwritten |
| `SharedMemory.StartShares` | libs/compiler/codegen.c:300-330 | its lists of jumps are empty |
| `SharedMemory.StatementShares` | libs/compiler/codegen.c:1719-2018 | everything the encoder writes for a statement without calls, in any context, its patches and drops included, is a legal run among the calls: they stay as they are, and the heads of the jump lists stay on open operands |
| `SharedMemory.CodeShares` | libs/compiler/codegen.c:1799-1903 | the same inside loops, whose lists end at other stop values |
| `SharedMemory.PatchShares` | libs/compiler/codegen.c:267-295 | so is every walk over a list of jumps |
| `SharedMemory.CallShares` | libs/compiler/codegen.c:212-264 | and calls, drops and definitions leave the lists of jumps as they are |
| `Calls.CallEncoder.FunctionsAdd` | libs/compiler/codegen.c:212-231 | numbers a function and walks from the head of its prototype whatever the cells hold, broken lists included, whenever that walk ends |
| `Calls.CallEncoder.FunctionsGet` | libs/compiler/codegen.c:241-264 | gives the number of a function, or extends the list; a parameter that is a function keeps its displacement |
| `Calls.CallEncoder.EmitCallee` | libs/compiler/codegen.c:926-929 | the end of a call of a user function |
| `Calls.CallEncoder.DropResult` | libs/compiler/codegen.c:1313-1318 | the end of an expression statement |
| `Decode.WriteInstruction` | libs/compiler/writer.c:2039-2075 | reads one instruction and as many operands as the table says |
| `Decode.WriteCodes` | libs/compiler/writer.c:2242-2259 | the listing of the whole memory |
| `WellFormed.ExprReads` | libs/compiler/codegen.c:1025-1295 | code of an expression reads back instruction by instruction, and its jumps go to instructions or its end |
| `WellFormed.VoidFormed` | libs/compiler/codegen.c:1303-1320 | the same after the result is dropped, also where a large operand makes the drop miss its instruction |
| `WellFormedStatements.StmtDecodes` | libs/compiler/codegen.c:1719-2018 | the same for every finished statement, and its first label is one of its instructions or its end |
| `Disassembly.FunctionFormed` | libs/compiler/codegen.c:1585-1613 | the same for a function with its header |
| `Disassembly.ProgramFormed` | libs/compiler/codegen.c:2026-2041 | the same for a whole program |
| `Disassembly.FormedListing` | libs/compiler/writer.c:1117-2075 | on such code every line of the listing is an instruction, the lines together are the memory, and every jump goes to a line or the end |
| `Disassembly.ProgramListing` | libs/compiler/writer.c:2242-2259 | the listing the compiler writes for any program without floats, strings and arrays: four reserved cells, then exactly the emitted code, every jump on a line |
| `Tokens.OperatorOfToken` | libs/compiler/operations.c:41-80 | every operator is read back from its token |
| `Notation.LevelOfToken` | libs/compiler/operations.c:82-146 | the precedence table gives every operator the level that section 6.5 of ISO/IEC 9899:2011 gives it |
| `Tokens.OperatorTokenUnique` | libs/compiler/operations.c:41-80 | no two tokens stand for one operator |
| `ParserReads.Reads` | libs/compiler/parser.c:566-614 | from any grammatical text at a level the parser reaches the tree and the rest, whatever follows it |
| `ParserReads.ReadsPostfix` | libs/compiler/parser.c:414-513 | the same for postfix operators |
| `ParserReads.ReadsItems` | libs/compiler/parser.c:385-396 | the same for lists of initializers and arguments |
| `ParserReads.ReadsExpression` | libs/compiler/parser.c:647-651 | every text of the grammar is parsed to its tree, up to the first token that does not continue it |
| `ParserReads.ClimbSplit` | libs/compiler/parser.c:630-651 | climbing to a lower level passes through every higher one |
| `ParserSound.ClimbSound` | libs/compiler/parser.c:566-614 | whatever the climbing parser accepts is the spelling of a concrete tree that respects precedence, with association to the right only for assignment and `?:`, and it stops at the first token that binds too loosely |
| `ParserSound.ParseSound` | libs/compiler/parser.c:566-614 | the same from the first operand on, braces included |
| `ParserSound.ExpressionExact` | libs/compiler/parser.c:647-651 | the parser accepts exactly the grammatical texts, with exactly their trees and exactly what follows them |
| `ParserSound.AssignmentExact` | libs/compiler/parser.c:630-634 | the same at the level of assignments |
| `ParserSound.ConditionalExact` | libs/compiler/parser.c:663-669 | the same at the level of constant expressions |
| `ParserSound.Unambiguous` | libs/compiler/parser.c:566-614 | a text has at most one tree |
| `Printer.Shortest` | libs/compiler/parser.c:566-614 | the printed form of a tree is grammatical and no way to write the tree is shorter |
| `Printer.RoundTripAt` | libs/compiler/parser.c:566-614 | at every level, a tree printed with only the parentheses it needs and followed by a token that binds too loosely is parsed back to the tree and that rest |
| `Printer.RoundTrip` | libs/compiler/parser.c:647-651 | the same for whole expressions |
| `Printer.Reprinted` | libs/compiler/parser.c:647-651 | every tree the parser gives can be printed, in no more tokens than it was read from |
| `Printer.PrintableExactly` | libs/compiler/parser.c:647-651 | the trees that can be printed are exactly those that some text gives |
| `Printer.PlainPrintable` | libs/compiler/parser.c:566-614 | every operator tree of names and literals can be printed at every level |
| `Parser.Parser.SkipUntilOneOf` | libs/compiler/parser.c:205-246 | the loop and its nested calls leave the tokens that `SkipUntil` leaves |
| `Recovery.SkipScans` | libs/compiler/parser.c:205-246 | skipping is one pass with the tokens that open brackets wait for; a closing token ends every wait for it at once |
| `Recovery.ChunksPassed` | libs/compiler/parser.c:205-246 | groups in brackets are skipped whole, unless one lies right inside another of its own kind or ends with the token waited for |
| `Recovery.RecoversAt` | libs/compiler/parser.c:447-475 | after such groups a missing bracket is found, or the semicolon before which it is missing |
| `Recovery.NestedEndsBoth` | libs/compiler/parser.c:205-246 | in `( ( ) ; )` the semicolon inside the outer brackets is taken for the one waited for |
| `Parser.Parser.ParsePrimaryExpression` | libs/compiler/parser.c:301-372 | result, remaining tokens and errors are those of the grammar function |
| `Parser.Parser.ParseInitializerList` | libs/compiler/parser.c:385-396 | the loop over commas gives the list of the grammar function |
| `Parser.Parser.ParsePostfixExpression` | libs/compiler/parser.c:414-513 | the loop over postfix operators gives the tree of the grammar function, in the error cases too |
| `Parser.Parser.TakeArguments` | libs/compiler/parser.c:447-475 | arguments of a call, none included, and recovery at a missing parenthesis |
| `Parser.Parser.ParseUnaryExpression` | libs/compiler/parser.c:531-555 | prefix operators associate to the right |
| `Parser.Parser.ParseRhsOfBinaryExpression` | libs/compiler/parser.c:566-614 | the loop that updates the left operand gives the tree of the grammar function |
| `Parser.Parser.ParseAssignmentExpression` | libs/compiler/parser.c:630-634 | result, remaining tokens and errors are those of the grammar function |
| `Parser.Parser.ParseExpression` | libs/compiler/parser.c:647-651 | result, remaining tokens and errors are those of the grammar function |
| `Parser.Parser.ParseConditionalExpression` | libs/compiler/parser.c:663-667 | the expression of a constant expression |
| `Parser.Parser.ParseInitializer` | libs/compiler/parser.c:682-715 | an empty list in braces is an error; a missing brace is recovered from |
| `Folding.FoldUnaryStands` | libs/compiler/builder.c:75-136 | a unary operator on a literal is replaced by the value it would have |
| `Folding.FoldBinaryStands` | libs/compiler/builder.c:138-238 | so is a binary operator on two literals |
| `Folding.FoldingKeeps` | libs/compiler/builder.c:789-1102 | for every tree: with folding or without, the same trees are refused, and the others keep type, lvalue category, value and effects in every environment |
| `Folding.ClosedFolds` | libs/compiler/builder.c:75-238 | a closed tree of integer and boolean literals becomes the literal of its value; when a part has no value the compiler cannot compute it |
| `Folding.CharacterStays` | libs/compiler/builder.c:142-147 | a closed tree with a character literal on the left of an operator is not folded |
| `Folding.ConstantExactly` | libs/compiler/builder.c:1117-1126 | a well-typed closed expression is accepted as a constant if and only if no operator has a character literal on its left and every part has a value; the constant is then its value |
| `Typing.TypesKept` | libs/compiler/builder.c:789-1102 | every tree the builder accepts keeps boolean variables at 0 and 1, and has such a value itself when its type is boolean; with folding and without |
| `Arithmetic.BitwiseBits` | libs/compiler/builder.c:185-190 | a bitwise operator works on every bit of the two operands by itself |
| `Arithmetic.TruncatingDivision` | libs/compiler/builder.c:161-164 | division truncates toward zero and the remainder has the sign of the dividend |
| `TreeMeaning.BuildMeans` | libs/compiler/builder.c:789-1102 | with folding or without, what the builder makes of a tree has in every environment the value and the effects that the standard gives the tree, said by the way its operators are written |
| `TreeMeaning.TypesExactly` | libs/compiler/builder.c:789-1102 | the builder accepts exactly the well-typed trees, gives them their types, and takes exactly names for lvalues |
| `TreeMeaning.FoldedTypes` | libs/compiler/builder.c:789-1102 | with folding a refused tree is not well-typed and a built one has its type |
| `TreeMeaning.BitsOf` | libs/compiler/builder.c:185-190 | `&`, `^` and `|` are and, exclusive or and or of the bits |
| `Pipeline.FoldedRuns` | libs/compiler/builder.c:789-1102 | code of the folded tree computes what the standard gives for the tree as written |
| `Pipeline.TextRuns` | libs/compiler/parser.c:647-651 | from the tokens of an expression to the value that the standard gives them, which its code computes |
| `IdentTable.IdentTable.IdentAdd` | libs/compiler/syntax.c:378-461 | a declaration fills an entry, links it to the previous meaning and refers the name to it; a rejected one leaves the half-filled entry that the code leaves |
| `IdentTable.IdentTable.GetStatic` | libs/compiler/syntax.c:103-118 | cells of a variable, upwards in a function and downwards outside |
| `IdentTable.IdentTable.ClearPrototype` | libs/compiler/syntax.c:451-457 | the loop that takes a name off the list of prototypes |
| `IdentTable.IdentTable.ScopeBlockEnter` | libs/compiler/syntax.c:916-926 | the open block starts at the end of the table |
| `IdentTable.IdentTable.ScopeBlockExit` | libs/compiler/syntax.c:928-945 | the loop that replays the entries of the block backwards gives the references of `Replay` |
| `IdentTable.IdentTable.ScopeFuncEnter` | libs/compiler/syntax.c:947-961 | a fresh frame for a function |
| `IdentTable.IdentTable.ScopeFuncExit` | libs/compiler/syntax.c:963-981 | the same replay at the end of a function |
| `ScopeStack.ReplayIs` | libs/compiler/syntax.c:935-939 | after a replay a name means what its earliest entry in the block says; other names are untouched |
| `ScopeStack.ReplayTwice` | libs/compiler/syntax.c:935-939 | replaying the entries of a closed inner block once more changes nothing |
| `ScopeStack.SameOutcome` | libs/compiler/syntax.c:388-409 | the table rejects a declaration if and only if the stack of maps does |
| `ScopeStack.CloseKeeps` | libs/compiler/syntax.c:928-945 | closing a block keeps the connection with the stack of maps, although entries of closed inner blocks are replayed |
| `ScopeStack.DeclareKeeps` | libs/compiler/syntax.c:378-461 | so does a declaration |
| `ScopeStack.StepSimulates` | libs/compiler/syntax.c:378-981 | each step of the table and of the stack of maps succeeds or is refused together, and they stay connected |
| `Scoping.Resolves` | libs/compiler/syntax.c:378-981 | after any run every name refers to its innermost live declaration |
| `Scoping.EntriesStay` | libs/compiler/syntax.c:411-459 | and, whatever was declared and closed in between, that entry holds the name, the type it was declared with, and for a function its number (0 where it was not taken for a function); main has an entry of its own |
| `Scoping.RejectedExactly` | libs/compiler/syntax.c:388-409 | after any run a variable is rejected if and only if its name is already declared in the open block |
| `Scoping.BlockRestores` | libs/compiler/syntax.c:916-945 | whatever is declared, opened and closed inside a block, closing it gives back every reference, the allocator and the block number |
| `Scoping.FunctionRestores` | libs/compiler/syntax.c:947-981 | the same for a function |
| `ScopeCells.StepCells` | libs/compiler/syntax.c:103-118 | every step keeps the variables of all open levels one after another, each where the one before it ends, from cell 3 upwards in a function and from -3 downwards outside, filling the cells given out |
| `ScopeCells.StartCells` | libs/compiler/syntax.c:89-101 | the empty table is such a state |
| `ScopeCells.RunCells` | libs/compiler/syntax.c:378-981 | the same after any run |
| `ScopeCells.VariablesApart` | libs/compiler/syntax.c:103-118 | two variables in scope in a function share no cell and lie inside its frame |
| `ScopeCells.FrameNeverShrinks` | libs/compiler/syntax.c:103-118 | the largest frame of a function never shrinks once its function parameters are declared |
| `ScopeCells.FrameIsHighest` | libs/compiler/syntax.c:103-118 | the largest frame of a function is exactly the highest point that its allocator reaches |
| `Scoping.StepLists` | libs/compiler/syntax.c:437-459 | over every step the list of prototypes without definition holds exactly the names whose file-level meaning is a prototype and the names that are stuck: a prototype of main, and a prototype whose definition was not taken for a function |
| `Scoping.CompleteExactly` | libs/compiler/syntax.c:287-311 | after any run the program is accepted as complete if and only if main is declared, no file-level meaning is a prototype, and no name is stuck |
| `Scoping.DefinitionUnlists` | libs/compiler/syntax.c:431-459 | a definition takes its prototype off the list if and only if its number lies between 1 and 1000 and its type is below 1000 |
| `Scoping.LateDefinitionStaysListed` | libs/compiler/syntax.c:431-459 | both inputs that fail: a number of 1000, and a type index of 1000, for which the entry also loses the number |
| `TypeTable.TypeTable.TypeIsEqual` | libs/compiler/syntax.c:121-151 | the loop that compares two records cell by cell |
| `TypeTable.TypeTable.TypeAdd` | libs/compiler/syntax.c:514-545 | lays a record out, walks back for an equal one, and cuts the table back exactly to what it was when it finds one |
| `TypeTable.TypeTable.TypeArray` | libs/compiler/syntax.c:785-788 | an array of an element type |
| `TypeTable.TypeTable.TypePointer` | libs/compiler/syntax.c:879-882 | a pointer |
| `TypeTable.TypeTable.TypeConst` | libs/compiler/syntax.c:884-887 | a const type |
| `TypeTable.TypeTable.TypeStructure` | libs/compiler/syntax.c:722-743 | a structure whose size is the sum of the sizes of its members |
| `Types.Compares` | libs/compiler/syntax.c:121-151 | two records compare equal if and only if they are the same record, or const versions of built-in types other than int |
| `Types.AddKeepsSound` | libs/compiler/syntax.c:514-545 | a request keeps the table without equal records, and every record made of types with smaller indices |
| `Types.RunKeepsSound` | libs/compiler/syntax.c:514-545 | so does any run of requests, which only adds to the table |
| `Types.AddKeepsRecords` | libs/compiler/syntax.c:514-545 | types given out keep their records and their cells |
| `Types.SameTypeExactly` | libs/compiler/syntax.c:514-545 | two requests get one index if and only if their records are taken for the same |
| `Types.ConstConfused` | libs/compiler/syntax.c:131-134 | const float and const bool get one index: the input on which indices do not tell types apart |
| `TypeMeaning.IndexIsMeaning` | libs/compiler/syntax.c:514-545 | in a table the compiler built, types have one index if and only if they are the same type all the way down |
| `TypeMeaning.TypeSizeIs` | libs/compiler/syntax.c:567-585 | the size read from the table is the number of cells of the type all the way down |
| `TypeRequests.RequestIs` | libs/compiler/syntax.c:514-545 | a requested type comes back as an index that means it |
| `TypeRequests.InternIs` | libs/compiler/syntax.c:722-887 | the same for any type built from its parts, as declarations do, that has no const on a built-in type other than int |
| `TypeRequests.RequestsAgree` | libs/compiler/syntax.c:514-545 | two such types requested at any two moments get one index if and only if they are the same type |
| `TypeRequests.RequestAgain` | libs/compiler/syntax.c:514-545 | asking again leaves the table as it is |
| `TypeTable.StartBuilt` | libs/compiler/syntax.c:89-101 | the initial table is one of these |
| `Members.MemberDispl` | libs/compiler/codegen.c:530-535 | the loop adds up the sizes of the members before the selected one, which is how far a selection moves |
| `Members.MembersInOrder` | libs/compiler/codegen.c:521-556 | the first member lies where its structure does, and each next one begins where the one before it ends, upwards for locals and downwards for globals |
| `Members.PathLands` | libs/compiler/codegen.c:521-556 | a chain of selections has a place if and only if it names members, and leads to its part of the variable behind the sum of the members it passes over |
| `Members.PathInside` | libs/compiler/codegen.c:521-556 | every chain of `.` selections from a local or global variable stays inside the cells of the variable |
| `Members.PathsApart` | libs/compiler/codegen.c:521-556 | two chains neither of which continues the other lead to disjoint cells |
| `Members.VariablesApart` | libs/compiler/codegen.c:521-556 | members of different variables in scope never share a cell |

## Left out

- Floating values, strings, arrays, slices, inline initializers, printing, threads and robot built-ins: their instructions depend on machine behaviour that is not in the repository.
- Pointers: addresses, indirection and `->` (with `IC_SELECT` and `IC_LAT`) are parsed but have no meaning in the model; the builder of the model refuses them.
- Calls in expressions: their operands and lists are modelled in `Calls`, `CallRuns` and `SharedMemory`, but expressions of `Ast` have no calls, so the meaning of a call is not part of the run theorems.
- Structure values: assignment, passing and initialization of whole structures; only their cells and members are modelled.
- The LLVM, MIPS and RISC-V generators, the lexer, diagnostics, locations, and writing of files.
- Statement and declaration parsing: statements enter as trees; `Confinement` states the rules of the parser for jumps and labels.
- Enumerations and the built-in message type in the type table; `type_function` with its letters.
- Labels of identifiers (kind 1 of `ident_add`), which no caller uses; declarations that are rejected are modelled by `IdentAdd` but end a run in `Scoping`.
- Anonymous structures, and structures of more than 48 members, for which the buffer of `type_structure` is too small.
- `const` objects, enumerations and null literals in `Builder`.
- ProgramRuns: ends at the call of main; calls have no step in the machine, and the body of main is the subject of `FunctionMeansSource`.
- FunctionMeansSource: requires that integer variables are given a value before they are read (by an initializer, an assignment statement, both branches of a conditional, or the start of a for loop), because the value of an uninitialized variable is undefined, and that a name declared in a branch or loop body without braces is not used outside it; labels stand directly in the body of their switch.
- CarefulSame: labels are one to a group; labels stacked on one statement and labels that are not literals are outside it and outside `FallThrough`.
- DisplacementsAdd: a parameter that is a function, whose displacement is recorded with its sign changed, is not modelled.
- EmitExpression: calls, members, pointers, floating values and arrays of the dispatch are not part of `Ast.Expr`; the cells of calls are in `Calls` and those of members in `Members`.
- EmitVariableDeclaration: initialized structures and arrays are not modelled.
- EmitReturn: a result of more than one cell, that is a structure, is not modelled.
- EmitFunctionDefinition: numbering the function and resolving its calls come before it and are in `Calls`; the encoder of statements has no table of functions.
- ForwardCallsExactly: is stated for function numbers below 9000, that is for fewer than 8998 functions; with a larger number the walk of a broken list could meet the missing call by coincidence.  `ForwardCallsResolve` has no such bound.
- StepKeeps: the encoder's writes are given as runs of instructions, of which `SharedMemory` derives those of whole statements without calls.
- StmtRuns: labels nested inside other statements of a switch are covered by the emission theorems but not by the meaning of runs.
- TypeStructure: takes at most 48 members, the size of the buffer in the source.
- IdentAdd: the type is a number, and the size of its cells is a parameter.
- ScopeBlockExit: is stated for a table that already holds a built-in function, as every table of the compiler does.
- WriteInstruction: the line shown for a floating constant is left out.
