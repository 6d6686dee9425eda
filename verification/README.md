# A model of the EstrOS toolchain

This project models the two halves of the toolchain and proves what each step keeps.

The compiler half follows a function body from characters to instructions: the tokenizer, the
recursive-descent parser over the node arena, the coalescing of one-child blocks, the emission of
SSA tokens, the two passes that rewrite them in place, and the register allocator that runs while
lowering. The machine half follows the instructions from text to effects: the assembler with its
fixups, the instruction table and its linear searches, the simulator with its memory map and block
operations, and the disassembler. `calling.dfy`, `source.dfy` and `worth.dfy` put the halves together:
the text of a body is compiled to a listing, the listing assembled to bytes, the bytes run, and the
value of the source ends up in a register of the simulated processor.

Code that works in place is modelled in place: classes with the source's fields (`Arena`, `Parsing`,
`Emitter`, the two `AsmState`s, `Sim`) and loops over a shared token array. Each method is proved
against a function of the state before, and the theorems are about those functions. What the functions
themselves amount to is told once more without them: precedence by rank, arithmetic by relations,
instructions by the bytes of their words and the registers and cells before and after, lines of
assembly by their characters.

| file | what it holds |
|---|---|
| `lexer.dfy`, `spaces.dfy`, `vocabulary.dfy` | tokenizer; what whitespace is; its words and characters listed |
| `grammar.dfy`, `precedence.dfy`, `parser.dfy`, `descent.dfy` | what expressions and bodies are accepted; which operator binds tighter; how the arena grows; the parser's functions |
| `ast.dfy`, `coalesce.dfy` | arena and trees; coalescing |
| `ssa.dfy`, `emission.dfy` | SSA tokens and their meaning; emission |
| `optimise.dfy`, `exactness.dfy`, `spines.dfy`, `passes.dfy` | the two passes; when comparing one argument is enough; the loops in place |
| `lower.dfy`, `lowering.dfy`, `compiler.dfy` | register allocation; the same in place; the compiler's stages together |
| `isa.dfy`, `floats.dfy`, `bits.dfy`, `memory.dfy`, `machine.dfy`, `simulator.dfy` | instruction table, integer rows and others; masks and shifts; memory; processor; the simulator in place, mask by mask |
| `arithmetic.dfy`, `effects.dfy`, `control.dfy`, `blocks.dfy` | what operators denote; what a step does, told by bytes, registers and cells |
| `asmtext.dfy`, `assembler.dfy`, `assembling.dfy` | assembly text; the assembler; the same in place |
| `program.dfy`, `refinement.dfy` | label-level programs; bytes refine them |
| `printing.dfy`, `disasm.dfy`, `encoding.dfy` | text written and read back; the disassembler; the bytes of a line |
| `toolchain.dfy`, `calling.dfy`, `source.dfy`, `worth.dfy` | the halves together; what a text of two operators is worth |

A well-formed function (`Ssa.WellFormed`) has distinct result ids of at least 32, and every argument is
a parameter or the result of an earlier token. Values are taken in any interpretation of the ten
operators; the machine's is `Machine.Alu`, with 32-bit wrap-around written out. What C leaves undefined
(division by zero, shifts by 32 or more) is a parameter `host`, so the theorems hold for any behaviour.

Where code and documentation disagree, the model follows the code:

- `cc/ssa.c:321` speaks of equal operands; the code compares one argument (`cc/ssa.c:328`). The number
  of compared arguments is a parameter, and `Spines.OneArgumentExact` says exactly when one is enough.
- `cc/asm.c:84-88` means to keep some registers from being freed; as written it keeps all of them.
  The test is a parameter, and both policies are characterised exactly.
- `RETURN` lowers to a bare `ret` (`cc/asm.c:190-193`), although `isa/README.md` says that `a0` holds the
  return value. Results are stated about the register of the returned id, which is a0 exactly when the
  first parameter is returned (`Lower.ReturnsInA0Exactly`).
- Literals and conditionals are parsed, but emission gives them no id, so that what reads them reads id 0:
  `Emission.UsableExactly`.
- The parser has levels for neither `==` nor `%`; each level takes at most one operator, so that a
  chain of equal operators ends the expression after the first (`Grammar.ParsesExactly`).
- An identifier is split at each underscore after its first character, since the word loop stops at
  punctuation (`cc/lexer.c:55`).
- `clz` and `clo` both count the clear bits below the lowest set one, which is right exactly as
  `Machine.LeadingZerosExactly` and `LeadingOnesExactly` say; `stq` and `ldq` move 32 bits;
  comparisons add their operands.
- `isa/README.md` has comparisons update the flags; the code clears the carry and never sets it
  (`isa/sim.c:159`), see `Machine.CarryReportedExactly`.
- `isa/README.md` has `memmov` copy the bytes and `memchr` find an address; as coded the downward copy is
  off by one and the search yields the base address. When they are right all the same:
  `Memory.MovesExactly`, `Machine.SearchExactly`.
- `call` links to the address after its target, which is right only for a call to itself
  (`Machine.CallLinksExactly`).

## Model

| member | source | states |
|---|---|---|
| `Lexer.Tokenize` | cc/lexer.c:26-62 | The pointer loop, on every input with no NUL byte where a token could start (there it never ends), pushes exactly the tokens of the recursive description `Lex`, bytes above seven bits stepping four places |
| `Lexer.PlainEnds` | cc/lexer.c:28-31 | Input of seven-bit characters other than NUL always ends |
| `Lexer.ReadToken` | cc/lexer.c:34-58 | The chain of tests at one position: table entries in order, then digits, then a word; every scan by its own loop |
| `Lexer.LexPartitions` | cc/lexer.c:28-60 | On ASCII input the tokens are non-empty, in order and disjoint, hold no whitespace, and everything outside them is whitespace |
| `Lexer.LongestExactly` | cc/lexer.h:6-54 | The longest-token rule, exactly: the longest punctuator spelled at a position is the token if and only if something follows it |
| `Lexer.FirstPunctLongest` | cc/lexer.c:44-47 | Because no entry is shorter than a later one, the first entry that matches is a longest one |
| `Lexer.EndLosesLongest` | cc/lexer.c:45 | A concrete input where the rule fails: `<=` at the end of the input becomes `<` and a word |
| `Lexer.LastIsWord` | cc/lexer.c:53-56 | The last character of the input, unless a digit, is a word, even a semicolon |
| `Lexer.WideByteSwallows` | cc/lexer.c:19-24 | A byte above seven bits starts a word and swallows the three bytes after it, whatever they are |
| `Lexer.KeywordExactly` | cc/lexer.c:36-43 | A run of identifier characters with something after it is a keyword if and only if the whole run is in the table |
| `Lexer.KeywordAtEnd` | cc/lexer.c:36-43 | A run of identifier characters that ends the input is taken for a keyword if and only if the run without its last character is in the table |
| `Lexer.WholeWordExactly` | cc/lexer.c:36-43 | The whole-word rule, exactly: it holds of a run if and only if something follows the run, or neither the run nor the run without its last character is a keyword |
| `Lexer.EndSplitsWord` | cc/lexer.c:39 | A concrete input where the whole-word rule fails: `intx` at the end of the input starts with the keyword `int` |
| `Lexer.LexReadsBack` | cc/lexer.c:26-62 | Any list of tokens, spelled with any non-empty whitespace after each, is read back: same types, same texts |
| `Spaces.LexAlike` | cc/lexer.c:28-61 | Texts that differ in the kind of their whitespace only have the same tokens, bytes of more than seven bits and unfinished ends included |
| `Spaces.AsBlank` | cc/lexer.c:29 | At any position of any text, each of blank, tab, newline, vertical tab, form feed and return can be a blank |
| `Spaces.OutsideTokensExactly` | cc/lexer.c:28-60 | In ASCII text a character lies in no token if and only if it is one of those six |
| `Vocabulary.KeywordsReserved` | cc/lexer.h:55-112 | The keywords are exactly the reserved words of C (section 6.4.1 of ISO/IEC 9899:2024, with the older underscore spellings), listed in their alphabetical order |
| `Vocabulary.ReservedExactly` | cc/lexer.c:36-43 | A run of identifier characters with something after it is a keyword token if and only if it is one of them |
| `Vocabulary.PunctuatorExactly` | cc/lexer.h:6-54 | The longest-token rule against the punctuators of C, listed by use |
| `Vocabulary.ClassesListed` | cc/lexer.c:11-13 | Which characters are digits, identifier characters, punctuation, and part of a word, each class listed |
| `Grammar.ParsesExactly` | cc/parser.c:44-172 | For any list of distinct operators: parsing yields a tree and a position if and only if the tree's operators strictly rise in level towards the root, the tokens up to the position spell it, and the token there does not continue it |
| `Grammar.RenderInjective` | cc/parser.c:44-172 | No two such trees share their tokens: the grammar is unambiguous |
| `Grammar.LevelsDistinct` | cc/parser.c:97-128 | The sixteen levels have distinct operators, so the theorems on any list of distinct operators apply to them; `Precedence` says which is which |
| `Grammar.LevelsMissing` | cc/parser.c:97-128 | No level parses equality or remainder, although both have tokens and node kinds |
| `Precedence.ParsesByRank` | cc/parser.c:97-128 | With a rank for each operator, told without the list of levels: an expression is parsed to a tree if and only if, in the tree, every operator is looser than all those below it, the tokens spell the tree, and nothing continues it |
| `Precedence.TwoOperators` | cc/parser.c:44-128 | For all operands that bind tighter and any two operators: the tighter of the two comes out below the other, wherever it stands; the same operator twice ends the expression after the first |
| `Worth.RanksWritten` | cc/parser.c:97-128 | The operators read from characters have the ranks their characters say, and the others none |
| `Worth.SameOperatorAborts` | cc/parser.c:44-89 | A body that returns an operator twice in a row, in any layout, aborts the compiler |
| `Worth.ChoiceParses` | cc/parser.c:130-172 | A conditional between names, in characters and any layout: its condition, its value if so, its value if not |
| `Grammar.BodyParsesExactly` | cc/parser.c:278-346 | A compound statement is parsed if and only if the tokens spell braces around return statements whose expressions fit, whatever follows |
| `Parser.BinopLands` | cc/parser.c:51-62 | The arena after a binary operator: the target block has one more child, made of new nodes only, and every other old node is as before |
| `Parser.IfLands` | cc/parser.c:137-158 | The same for the conditional expression with its three blocks |
| `Parser.Copied` | cc/ast.c:134-143 | Copying a filled block into an empty one, sharing its child array, gives the target the same children |
| `Descent.Parsing.Primary` | cc/parser.c:173-193 | Identifier or literal; otherwise arena and cursor stay as they are |
| `Descent.Parsing.Postfix` | cc/parser.c:194-200 | On an empty block the operand lands in it; on a block with children it is parsed into a block nothing refers to |
| `Descent.Parsing.Unary` | cc/parser.c:201-207 | The same through one more layer |
| `Descent.Parsing.Binary` | cc/parser.c:44-89 | One precedence level with its locked retry, proved against the grammar: a failure leaves arena, target and cursor exactly as found (so the retry never succeeds), a success fills the target with a tree that normalises to the grammar's, an abort is where the grammar has none; the recursion ends |
| `Descent.Parsing.RightOperand` | cc/parser.c:50-66 | The part of a level after its operator was seen |
| `Descent.Parsing.Conditional` | cc/parser.c:130-172 | The conditional expression, same contract |
| `Descent.Parsing.Branches` | cc/parser.c:137-163 | Its part after the question mark |
| `Descent.Parsing.Assignment` | cc/parser.c:239-267 | Same contract; whatever is no conditional expression starts with no operand, so no assignment is ever parsed |
| `Descent.Parsing.Expression` | cc/parser.c:268-277 | Same contract; the retry under the lock never succeeds |
| `Descent.Parsing.Jump` | cc/parser.c:278-306 | The return statement, with or without an expression |
| `Descent.Parsing.StatementList` | cc/parser.c:310-318 | The statement loop lands all statements in the target, in order; for a target that has children they are lost |
| `Descent.Parsing.Compound` | cc/parser.c:322-346 | The compound statement, proved against the grammar of bodies |
| `Descent.Parsing.Body` | cc/parser.c:322-346 | Parsing a body into a fresh block and coalescing it gives a node that spells out the body's tree |
| `Coalesce.Arena.PushNode` | cc/ast.c:105-109 | Appends a node; its index is the old length |
| `Coalesce.Arena.PopNode` | cc/ast.c:111-114 | Removes the newest node; every call in the parser is shown to pop exactly that one |
| `Coalesce.Arena.PushChild` | cc/ast.c:116-123 | One more child for a block; neither assertion of the source can fail in the parser |
| `Coalesce.Arena.PushChildCoalesce` | cc/ast.c:134-143 | Copies the node into an empty block, else pushes it as a child |
| `Coalesce.Arena.CoalesceRef` | cc/ast.c:150-184 | The recursive visit on any acyclic arena, shared child arrays included: every node keeps its meaning, no one-child block is reachable from the result, and a clean tree is left untouched |
| `Coalesce.Arena.CoalesceTree` | cc/ast.c:150-184 | The whole pass: a node that spells out a tree ends up spelling out the tree normalised, every other tree keeps its meaning, and a second pass changes nothing |
| `Coalesce.NormIdempotent` | cc/ast.c:150-184 | Normalising twice is normalising once |
| `Ast.UnfoldableRanked` | cc/ast.c:150-184 | The nodes that spell out finite trees can be ranked so that references go down: the termination measure, without assuming one |
| `Emission.Emitter.EmitNode` | cc/ssa.c:185-256 | The recursion over the arena pushes the tokens, returns the id and advances the counter as the tree-level description says, aborts included |
| `Emission.EmitExprShape` | cc/ssa.c:185-256 | Emitted expressions are well-formed SSA: result ids distinct and at least 32, arguments parameters or earlier results, ids used equal nodes visited, though ids are preorder and tokens postorder |
| `Emission.EmitExprValue` | cc/ssa.c:185-256 | The id an expression yields has the expression's value once its tokens have run |
| `Emission.EmitBodyShape` | cc/ssa.c:201-226 | The same shape for bodies: blocks of return statements |
| `Emission.EmitBodyValue` | cc/ssa.c:219-226 | The first return of an emitted body returns the value of the body's first returned expression |
| `Emission.UsableExactly` | cc/ssa.c:185-256 | An emitted expression uses one id a node; it yields an id, with no operand missing on the way, if and only if it consists of parameters and operators: a literal or a conditional has a value nowhere |
| `Worth.ParsedUsableExactly` | cc/ssa.c:185-256 | The same for whatever the parser reads |
| `Emission.ParamIndex` | cc/ssa.c:155-169 | The first parameter of that name, or the abort |
| `Passes.ReplaceWith` | cc/ssa.c:294-307 | In place in the shared array: from the offset on, every mention of one id becomes the other; tokens of other functions are untouched |
| `Passes.OptimiseIdentity` | cc/ssa.c:310-319 | The in-place loop, with substitutions running ahead of the cursor, computes the pass on sequences |
| `Passes.OptimiseReused` | cc/ssa.c:322-335 | The in-place double loop computes the merging pass on sequences, for any number of compared arguments |
| `Passes.OptimiseFunc` | cc/ssa.c:337-340 | Both passes in order on one function's window |
| `Optimise.IdentityPassCorrect` | cc/ssa.c:310-319 | For any well-formed function, chains included: it stays well-formed, no identity remains, no later token mentions an eliminated result, and every surviving id and the return keep their values |
| `Optimise.MergeStep` | cc/ssa.c:328-331 | One merge keeps well-formedness and values as soon as the right operands agree in value |
| `Optimise.ReusedPassSound` | cc/ssa.c:322-335 | With two or more arguments compared (or where no pair that merges differs in value) every id keeps its value under the id that now stands for it, and so does the return |
| `Optimise.NoNewMatch` | cc/ssa.c:294-307 | Substituting ahead of the cursor never makes a token match one already processed |
| `Optimise.ReusedPassComplete` | cc/ssa.c:322-335 | One forward pass is complete: afterwards no two surviving tokens have equal kind and equal compared arguments |
| `Optimise.ReusedPassIdempotent` | cc/ssa.c:322-335 | A second run of the merging pass changes nothing |
| `Exactness.EveryIdExact` | cc/ssa.c:328 | The comparison as written looks at one argument only; with it every id keeps its term if and only if, for every two operations of one kind, equal left terms come with equal right terms |
| `Spines.MergeExactly` | cc/ssa.c:322-335 | With one argument compared two ids become one if and only if their left spines (the operators down the left operands, and the parameter) are equal |
| `Spines.OneArgumentExact` | cc/ssa.c:328 | Up to any position, survivors and return keep their terms if and only if whatever a first token of its spine, or the return, reads has the term of the first token of its own spine |
| `Spines.OneArgumentExactWhole` | cc/ssa.c:328 | For the whole function that condition is exact for keeping the meaning |
| `Spines.OneArgumentKeeps` | cc/ssa.c:328 | Under that condition values are kept under every choice of operators |
| `Spines.DistinctAgree` | cc/ssa.c:328 | Where no two operations are of one kind, comparing one argument is enough |
| `Spines.ArgumentsStand` | cc/ssa.c:294-307 | After the pass every argument reads what stands for the one before |
| `Exactness.OneArgumentLosesMeaning` | cc/ssa.c:328 | A concrete function, (a + b) * (a + c), whose result the pass as written changes |
| `Exactness.DistinctIdsDistinctTerms` | cc/ssa.c:321-335 | After a complete pass over all arguments different ids hold different terms: no computation is done twice |
| `Passes.OptimisedCorrect` | cc/ssa.c:337-340 | Both passes together keep the meaning of every well-formed function, up to its first return at least, and leave neither identities nor repeated computations |
| `Passes.ComparesEnoughExactly` | cc/ssa.c:328-340 | As written, the optimiser keeps the terms of what runs if and only if the reads agree up to the first return |
| `Lowering.IsUsedIn` | cc/ssa.c:122-132 | Whether a token mentions an id, as result or argument |
| `Lowering.IsLastUse` | cc/ssa.c:135-141 | True exactly when no token from the offset on mentions the id |
| `Lowering.AsmState.FindFreeReg` | cc/asm.c:89-104 | First free of T0 to T6, else first free spill, else a new one (T7 is never tried) |
| `Lowering.AsmState.Alloc` | cc/asm.c:105-109 | Records the id in that register |
| `Lowering.AsmState.Free` | cc/asm.c:110-114 | Clears the register unless it is fixed; the assertion on a register that holds nothing is the failure |
| `Lowering.AsmState.Holder` | cc/asm.c:115-120 | First register that holds the id, or the abort |
| `Lowering.AsmState.Binop` | cc/asm.c:134-144 | Allocation, operand search, emission and both frees, in the source's order, equal the description on sequences |
| `Lowering.AsmState.LowerFunc` | cc/asm.c:146-196 | The token loop: table and output as described, or the abort |
| `Lower.BinopStep` | cc/asm.c:134-144 | One operation keeps the table consistent, reads operands from registers that hold them, writes a register no live id occupies, clears only operands no later token mentions, and fails exactly on a second free |
| `Lower.LowerOk` | cc/asm.c:146-196 | At every step no id sits in two registers, the parameters sit in A0 to A3, and every id with a later use sits in a register |
| `Lower.MeantPolicyFailsExactly` | cc/asm.c:84-88 | With the fixed-register test as meant, lowering fails if and only if some token is x op x for the last use of a temporary |
| `Lower.WrittenPolicySucceeds` | cc/asm.c:85 | With the test as written, which holds of every register, lowering never fails |
| `Lower.WrittenPolicyFitsExactly` | cc/asm.c:89-114 | As written, a function fits the registers if and only if it has at most seven operations |
| `Lower.WrittenPlaces` | cc/asm.c:84-104 | As written, the results of the first seven operations go to T0 to T6 in order and stay there |
| `Lower.OnlyNamedRegisters` | cc/asm.c:70-74 | Without spills, instructions name T0 to T6 and A0 to A3 only, and write none but T0 to T6 |
| `Lower.LowerSimulates` | cc/asm.c:134-196 | After every token each occupied register of the machine holds the value of the id the table gives it, for any register test that covers the argument and special registers |
| `Lower.LoweredReturns` | cc/asm.c:190-193 | Running up to the first `ret` leaves the returned value in the register the table gives for the returned id |
| `Lower.ReturnsInA0Exactly` | cc/asm.c:190-193 | A return finds its value in a0 if and only if it returns the first parameter |
| `Compiler.ReturnSurvives` | cc/ssa.c:322-335 | The first return is never merged away, although later equal ones are |
| `Compiler.FrontendCorrect` | cc/ssa.c:185-340 | Emitting and optimising a body gives tokens fit for lowering that return the body's value |
| `Compiler.CompiledCorrect` | cc/asm.c:134-197 | Emitting, optimising, allocating and running a body leaves its value in the register of the returned id |
| `Compiler.CompileFunc` | cc/ssa.c:273-340 | Emitter, optimiser and allocator one after the other, in place, equal their composition |
| `Isa.DispatchRecovers` | isa/sim.c:1023-1061 | The linear search by opcode byte finds every integer instruction, immediate bit or not, except that `chtreeunchk` is taken for `chtree` |
| `Isa.FindOpcodeRecovers` | isa/dis.c:60-64 | The same for the disassembler's search |
| `Isa.FindNameRecovers` | isa/asm.c:140-142 | The linear search by name finds every integer instruction |
| `Isa.NamesDistinct` | isa/isa.h:110-178 | No two integer rows have the same name |
| `Isa.NameHasOpcode` | isa/isa.h:110-178 | Every integer row's name and opcode, as characters and numbers |
| `Floats.NameHasOpcode` | isa/isa.h:180-241 | The same for the rows after the integer ones |
| `Floats.FindRowRecovers` | isa/asm.c:140-142 | The search by name finds every row after the integer ones |
| `Isa.RowsOrdered` | isa/isa.h:110-178 | The integer rows are in the order of their opcodes, and only `chtree` and `chtreeunchk` share one |
| `Memory.WordCellsDistinct` | isa/sim.c:63-75 | At every address, region edges, trap page and wrap-around included, the four bytes of a word are four cells |
| `Memory.WordStoreLoad` | isa/sim.c:85-101 | Storing a word and loading it gives exactly its byte swap, disturbs no other cell, and swapping again restores it |
| `Memory.CopyIsSimultaneous` | isa/sim.c:811-818 | Any length, wrapping addresses: when no cell is written before a later iteration reads it, copying by bytes is copying at once, and no other cell changes |
| `Memory.HazardInRam` | isa/sim.c:811-818 | Within RAM that condition is: the destination does not start inside the source |
| `Memory.StrNCopyIsCopy` | isa/sim.c:888-899 | On every memory the bounded string copy is the block copy up to and including the first NUL, or of all the bytes when there is none among them |
| `Memory.CopyLengthExists` | isa/sim.c:891-896 | Every memory has such a length |
| `Memory.StopsAtNul` | isa/sim.c:860-870 | While nothing is overwritten ahead of the copy, the unbounded string copy stops at the first NUL of the source, and there only |
| `Memory.StopsExactly` | isa/sim.c:860-870 | On every memory, overlapping or not, the unbounded copy ends if and only if after some number of its bytes the next one it reads is NUL |
| `Memory.CopyDownShifted` | isa/sim.c:823-824 | What the downward loop of memmov writes, cell by cell: the bytes at offsets 1 to the length, not those from 0 to one less; no other cell changes |
| `Memory.MovesExactly` | isa/sim.c:819-828 | memmov, both loops, leaves the old source in the destination if and only if: upwards, the source repeats at the distance where it is overwritten before it is read; downwards, the same of offsets from 1 on, and byte 0 of the destination is already byte 0 of the source |
| `Memory.MoveWritesPast` | isa/sim.c:823-824 | The downward loop also writes the byte after the destination |
| `Memory.MoveFails` | isa/sim.c:823-824 | A concrete memory where memmov fails: one byte moved down by sixteen stays behind |
| `Memory.FillSets` | isa/sim.c:829-836 | The fill sets exactly the cells of the range |
| `Machine.AluBits` | isa/sim.c:641-661 | The bitwise instructions act position by position |
| `Machine.CarryNeverSet` | isa/sim.c:156-161 | No run sets the carry flag: the test for it masks with the complement of a 32-bit constant, which is zero |
| `Machine.CarryBranchFixed` | isa/sim.c:993-998 | From a state with the carry clear, a branch that asks for carry is decided by its inversion bit alone, however many steps later |
| `Machine.CarryReportedExactly` | isa/sim.c:771-780 | A comparison reports the carry of its sum if and only if there is none |
| `Machine.CarryMissed` | isa/sim.c:771-780 | A concrete sum whose carry is missed: 0xFFFFFFFF and 1 |
| `Machine.CallLinksExactly` | isa/sim.c:957-964 | The call leaves in the link register the address after itself if and only if register plus displacement is its own address |
| `Machine.CallLinksWrong` | isa/sim.c:957-964 | A concrete call, from 0x8000 to 0x9000, that links to 0x9004 |
| `Machine.LowZeros` | isa/sim.c:130-148 | What both count-leading instructions compute: the clear bits below the lowest set one |
| `Machine.LeadingZerosExactly` | isa/sim.c:130-148 | clz counts the leading zeros if and only if the word is zero or its lowest set bit is as far from the bottom as its highest from the top |
| `Machine.LeadingOnesExactly` | isa/sim.c:130-148 | clo counts the leading ones if and only if the lowest set bit is as far from the bottom as the highest clear one from the top |
| `Machine.LeadingCountsFail` | isa/sim.c:130-148 | Words on which they fail: 1 and 0 |
| `Machine.SearchExactly` | isa/sim.c:837-859 | memchr and memchrf yield the address of the first match, or what a miss yields, if and only if the byte is absent, or found at offset 0 (for a register holding more than a byte, which never matches: found at address 0) |
| `Machine.SearchFails` | isa/sim.c:837-848 | A concrete search that yields the base address for a byte found sixteen further on |
| `Simulator.CountOnes` | isa/sim.c:122-128 | The population-count loop |
| `Simulator.CountFromLow` | isa/sim.c:130-148 | The loop both count-leading instructions share |
| `Simulator.MatchTable` | isa/sim.c:1023-1060 | The search through the table, as a loop |
| `Simulator.Sim.Load32` | isa/sim.c:85-97 | High byte first, from two 16-bit loads |
| `Simulator.Sim.Store32` | isa/sim.c:89-101 | Low byte first, by two 16-bit stores |
| `Simulator.Sim.CopyBytes` | isa/sim.c:811-814 | The copy loop of memcpy |
| `Simulator.Sim.FillBytes` | isa/sim.c:829-832 | The loop of memset |
| `Simulator.Sim.CopyString` | isa/sim.c:860-870 | The loop of strcpy, on the memories where it ends, is the block copy up to and including the byte it ends at |
| `Simulator.Sim.CopyStringN` | isa/sim.c:888-896 | The loop of strncpy |
| `Simulator.Sim.ImmOrRegInst` | isa/sim.c:599-792 | Executing the immediate-or-register instructions in place is the machine's function, whose effects `Effects` tells without it |
| `Simulator.Sim.DecodeOperands` | isa/sim.c:577-598 | The decoder's masks and shifts give the fields, the address and the two values |
| `Simulator.Sim.UpdateFlags` | isa/sim.c:179-182 | Clearing and setting flags by masks on the 32-bit word changes zero and negative as the value says, and nothing else |
| `Simulator.Sim.Add32` | isa/sim.c:156-161 | The 64-bit sum and its carry test, mask by mask: the sum wraps and the carry is cleared |
| `Simulator.SwapBytes` | isa/sim.c:149-154 | The byte swap by masks, shifts and ors |
| `Simulator.Sim.FourRegsInst` | isa/sim.c:799-945 | Decoding and executing the four-register instructions in place, both loops of memmov included, is the machine's function, whose effects `Blocks` tells; those that abort, and strcpy, have no result |
| `Simulator.Sim.BranchInst` | isa/sim.c:970-1001 | The branch in place: switch on the opcode, flag masks one by one, inversion, target; `Control` tells when it is taken |
| `Simulator.Sim.CallInst` | isa/sim.c:957-964 | The call, or nothing where the byte names no register |
| `Simulator.Sim.CopyBytesDown` | isa/sim.c:823-824 | The second loop of memmov, which goes from the length down to one |
| `Simulator.Sim.FindByte` | isa/sim.c:840-844 | The search loop of memchr, which compares a byte with a whole register |
| `Simulator.Sim.StepOnce` | isa/sim.c:1039-1061 | One step in place is one step of the machine on values |
| `AsmText.CondSpelled` | isa/asm.c:81-87 | Every subset of the four condition letters, in their order, is read as its bits |
| `AsmText.CondShorthand` | isa/asm.c:89-94 | The shorthands g, l, e and le are read as 13, 8, 4 and 12 |
| `Effects.MemoryMap` | isa/sim.c:56-69 | The memory map in numbers: what an address reads, for all addresses |
| `Effects.WritesSeen` | isa/sim.c:56-83 | A byte written is seen at its own address, and at another if and only if both lie outside RAM and ROM a multiple of a page apart |
| `Arithmetic.AluDenotes` | isa/sim.c:599-675 | Each operator's result relates to its operands as the operator's characters say: sums, differences and products modulo 2 to the 32, quotient and remainder by their inequalities, bits position by position, shifts by moved positions |
| `Arithmetic.DenotesOne` | isa/sim.c:599-675 | Those relations leave room for one value only |
| `Effects.ArithmeticStep` | isa/sim.c:577-675 | A step on an arithmetic word, opcodes in numbers: the result register relates to the two values of the word as the operator says, the flags tell zero and sign, everything else is as before |
| `Effects.WordHasOperands` | isa/sim.c:577-598 | Every word has the two values and the address the steps are told by |
| `Effects.CountStep` | isa/sim.c:676-710 | The counts and the byte swap of the sum of the two values: the number of set or clear positions, the distance of the lowest set one, the bytes reversed |
| `Effects.StoreStep` | isa/sim.c:711-734 | A store puts the low one, two or four bytes of its register at its address, lowest first; other cells, registers and flags are as before |
| `Effects.LoadStep` | isa/sim.c:735-758 | A load leaves the one, two or four bytes at its address, highest first, and no word in the flags |
| `Effects.AddressStep` | isa/sim.c:759-764 | The address itself: register plus four times the byte, or plus a register times four times the small immediate |
| `Effects.CompareStep` | isa/sim.c:771-797 | The flag word that sign and zero of the sum and a clear carry make, in the register and, for the first of the two, in the flags |
| `Control.BranchStep` | isa/sim.c:970-1001 | Each of the sixteen branches, by opcode and in unsigned numbers: control goes to the target exactly where the register is as asked and the flags asked for are set, or, inverted, exactly where not; nothing else changes |
| `Control.JumpStep` | isa/sim.c:946-969 | The two jumps and the return |
| `Control.CallStep` | isa/sim.c:957-964 | The call's target and link, and that it has no result exactly where its byte names no register |
| `Blocks.CopyStep` | isa/sim.c:811-818 | memcpy in the registers of its word: where nothing is overwritten before it is read, each destination cell holds what its source held, any other cell is as before, and the destination register holds the address |
| `Blocks.MoveStep` | isa/sim.c:819-828 | memmov likewise: the bytes arrive if and only if the blocks fit, and only the destination and the cell after it change |
| `Blocks.FillStep` | isa/sim.c:829-836 | memset likewise: the low byte of its second register in exactly the cells of the range |
| `Blocks.StringStep` | isa/sim.c:888-899 | strncpy likewise: the bytes up to and including the first NUL, or all of them |
| `Blocks.SearchStep` | isa/sim.c:837-859 | memchr and memchrf: the start address where some cell equals the whole register, else 0, and which of them tells the flags |
| `Blocks.TableStep` | isa/sim.c:918-929 | indtab and indtab8: the word at the base plus four or eight times the sum of the indices |
| `Blocks.WalkStep` | isa/sim.c:930-937 | chtree leaves nothing behind |
| `Blocks.StepsExactly` | isa/sim.c:1023-1061 | A word steps if and only if its opcode byte is one of those listed, a call naming a register |
| `Assembling.AsmState.EmitInst` | isa/asm.c:140-214 | The searches by name, through integer and float rows, then the word and its fixup, or nothing for an unknown name |
| `Assembling.FindFloatRow` | isa/asm.c:140-142 | The search goes on through the rows after the integer ones |
| `Assembling.AsmState.Process` | isa/asm.c:216-256 | What one line adds to output, labels, fixups and pc |
| `Assembling.AsmState.Assemble` | isa/asm.c:259-277 | The line loop over a text |
| `Assembling.AsmState.Lookup` | isa/asm.c:279-287 | The first definition of a label |
| `Assembling.AsmState.ApplyFixups` | isa/asm.c:289-306 | The fixup loop, or the abort on an unknown label |
| `Assembler.AssembleInvariant` | isa/asm.c:140-277 | After any number of lines, float rows included, pc is the output length and a multiple of four, labels are instruction boundaries, each fixup is at a branch word of its own |
| `Assembler.FixupEffect` | isa/asm.c:289-306 | Fixups write byte two of their sites, and nothing else changes |
| `Assembler.FixupOrder` | isa/asm.c:289-306 | Their order does not matter |
| `Assembler.BranchHitsLabelExactly` | isa/asm.c:296-299 | The arithmetic of that: truncated to a byte and sign-extended, the displacement is right if and only if it fits |
| `Encoding.OperandNames` | isa/asm.c:73-138 | Operands in characters: registers by number, alias and special name, float registers, numbers |
| `Encoding.MoreDigits` | isa/asm.c:76-130 | Numbers are read in decimal: one more digit is ten times as much and its value |
| `Encoding.RestIgnored` | isa/asm.c:218-219 | A hash sign, a return or a newline ends a line, whatever follows |
| `Encoding.IndentIgnored` | isa/asm.c:222 | Whitespace in front of a line is skipped |
| `Encoding.LabelRead` | isa/asm.c:225-232 | A label is read up to its colon, whatever follows, if it fits its buffer |
| `Encoding.ImmLine` | isa/asm.c:144-160 | For every row of the format and all operands, the four bytes of a line with an immediate, its opcode in numbers |
| `Encoding.RegLine` | isa/asm.c:144-160 | The same with a register and a small number |
| `Encoding.FourLine` | isa/asm.c:182-191 | The same for four registers |
| `Encoding.BranchLine` | isa/asm.c:166-181 | The same for a branch with a number, its condition spelled letter by letter |
| `Encoding.FloatRowLine` | isa/asm.c:192-201 | The same for four float registers, with control byte 1 |
| `Program.LineEmits` | isa/asm.c:140-214 | A line adds the word of the instruction it names, integer or float, with a fixup for a branch to a label, or nothing |
| `Refinement.TakenBranchHitsLabel` | isa/sim.c:970-1001 | After the fixups, at any load address, a taken branch at a fixup site goes to the first definition of its label if and only if the displacement fits a signed byte |
| `Program.Layout` | isa/asm.c:140-277 | The output is the encodings of the program's instructions in order, with labels and fixups where the program has them |
| `Program.AssembledCode` | isa/asm.c:289-306 | After fixups word k is instruction k with its label resolved |
| `Refinement.ExecutesInstr` | isa/sim.c:577-598 | Decoding and executing an assembled word is executing the instruction, whatever numbers its operands hold, where that has a result |
| `Refinement.StepRefines` | isa/sim.c:1039-1061 | One step on the bytes is one step of the label-level interpreter, which reads registers modulo 16, immediates modulo 256 and branch displacements as signed bytes |
| `Refinement.RunRefines` | isa/sim.c:1039-1061 | Whole runs, any length: while control stays within the program and no store hits its bytes, n steps on the bytes are n steps of the interpreter on instructions and labels |
| `Refinement.LoadedFromCode` | isa/asm.c:259-306 | A ROM that starts with the assembled bytes holds the program |
| `Refinement.AssembledRuns` | isa/asm.c:259-306 | Assembling lines with labels and branches, fixing them up, loading the bytes and running them is running the program the lines describe, for any number of steps |
| `Printing.AtollOfDec` | isa/dis.c:25 | Signed decimals are read back |
| `Printing.LinesOfConcat` | isa/asm.c:259-277 | Lines put together come apart again |
| `Printing.AssemblesLineByLine` | isa/asm.c:259-277 | Lines assemble independently: the output of a text is the outputs of its lines in order |
| `Disasm.OperandOfCond` | isa/dis.c:23-31 | A printed condition is read back if and only if it is 0, 1, 3, 7 or 15 |
| `Disasm.WordReadBack` | isa/dis.c:8-50 | Printing and assembling a word gives it back if and only if its format allows: any immediate or register word; opcode byte below 0x80 otherwise; zero operand bytes for `ret`; those conditions, and not `bgpcrela`, for branches |
| `Disasm.FullColumnLost` | isa/dis.c:49 | `bgpcrela` fills its column, so that its operands run into the name and the line assembles to no bytes |
| `Encoding.ImmPrinted` | isa/dis.c:8-50 | The characters printed for a word with an immediate: name in its column, registers, the byte as a signed number |
| `Disasm.ListingReadBack` | isa/dis.c:52-76 | A stream of integer words survives disassembling and assembling if and only if each of its words does |
| `Disasm.Disassemble` | isa/dis.c:52-76 | The read loop on any stream: other control bytes, integer and float rows, opcodes without a row, partial words and the abort included; on integer words it prints exactly their lines |
| `Disasm.PrintsExactly` | isa/dis.c:60-64 | A word prints a line if and only if some row of the table, integer or float, has its opcode |
| `Disasm.PrintedOpcodes` | isa/isa.h:110-241 | Those opcodes in numbers: 0 to 0x2c, 0x30 to 0x3e, 0x40 to 0x44, 0x50 to 0x5f |
| `Encoding.StreamStep` | isa/dis.c:52-76 | The stream by its first byte: 0 prints a word and goes on after it, 1, 3 and 4 skip a byte, end of file ends, the rest abort |
| `Toolchain.FuncParses` | cc/asm.c:146-200 | The text the compiler writes for a function parses to its label and instructions; the section lines name no instruction |
| `Calling.FuncAssembles` | isa/asm.c:140-306 | That text assembles to one word per instruction, with nothing to fix up |
| `Calling.OpsRun` | isa/sim.c:599-675 | Running the compiled operations keeps the machine's registers in step with the compiler's, memory and the special registers unchanged |
| `Calling.RetSteps` | isa/sim.c:965-969 | `ret` goes to the address in the return-address register |
| `Calling.SourceToResult` | cc/asm.c:134-197 | Any body the compiler handles, any host, any machine state: the listing assembles, and called at the start of ROM it comes back to the caller with the source's value in the register of the returned id, memory, a0 to a3 and the special registers as they were |
| `Calling.AsWrittenToResult` | cc/asm.c:84-197 | The same for the code exactly as written (one argument compared, no register ever freed) and at most seven operations |
| `Calling.ResultInA0Exactly` | cc/asm.c:190-193 | That register is a0, where `isa/README.md` has the return value, if and only if the function returns its first parameter |
| `Source.TokensReadBack` | cc/lexer.c:26-62 | Parser tokens written as text, with any whitespace between, are tokenized back |
| `Source.BodyReadBack` | cc/parser.c:322-346 | A body written as text, in any layout, tokenized and parsed is that body |
| `Source.CompileText` | cc/ssa.c:185-340 | Tokenizer, parser, coalescing, emitter, optimiser and allocator, run in place one after the other on a body, equal their descriptions composed |
| `Source.TextToResult` | cc/asm.c:134-197 | From text to result: whatever text parses to a body the compiler handles compiles to a listing whose bytes, run on the simulator, return the value of its first return |
| `Source.WrittenToResult` | cc/parser.c:322-346 | In particular the text, in any layout, of every body whose names and literals can be written |
| `Worth.TextMeans` | cc/asm.c:134-197 | The value that the call of a compiled text comes back with is the one its first returned expression means, told by what its operators denote and by the registers that hold the parameters |
| `Worth.MeansOne` | cc/ssa.c:185-256 | An expression means one value at most |
| `Worth.TwoOperatorWorth` | cc/parser.c:97-128 | From characters to a number, for the code exactly as written: a body that returns two different operators between any parameters, in any layout, compiles and assembles to bytes that, called at 0x8000, come back with register 1 holding what the two operators denote, the tighter applied first, on the values registers 8 to 11 held |
| `Worth.SumOfProduct` | cc/parser.c:97-128 | The text `{ return a * b + c ; }` returns the sum of the product and c |

## Left out

- Declarations, declarators, types and storage classes of the parser: mostly flags; a body comes with its parameter names. The order of pops at cc/parser.c:373-374 would trip the assertion of the pop.
- Raw data, CALL, BRANCH, PHI, NOT and float tokens: the emitter never makes them.
- Argument widths: the macro that makes them ends in a comma and a 0 (cc/ssa.h:11-17), so that every width is 0 and they never tell two tokens apart. Padding bytes, which the comparison also covers, are taken to agree.
- The lowering of IDENTITY tokens: the identity pass leaves none.
- Widths of ids (12 bits), of token counts and token lengths (8 bits) and of positions (24 bits): the model's are unbounded, which is right up to those limits.
- Spilled registers: they have no name to print, so the end-to-end results require that none is needed; WrittenPolicyFitsExactly says when.
- Calling.SourceToResult: requires at most four parameters, no spill, code that fits the ROM, and a function name short enough for a label.
- Source.TextToResult: the same, and bodies of returns with expressions over the parameters and the ten operators (others miss an operand, Worth.ParsedUsableExactly), with reads that agree where one argument is compared.
- Lower.LowerOk: requires that no operation is the last token, which would trip the assertion at cc/ssa.c:136; emitted bodies end in a return.
- Refinement.RunRefines: says nothing once control leaves the program or a store hits its bytes.
- Casts and unary operators in the tree: the parser never makes them, and no pass visits their operands.
- Return statements without an expression in the end-to-end results: they parse, but emit a use of id 0.
- Coalesce.Arena.PushChild: the child list always moves to a new array, as if realloc never extended in place; rows no node refers to any more are kept instead of freed.
- Descent.Parsing.Body: the body only; the declaration nodes around it belong to the declarations.
- Lexer.Tokenize: requires that no NUL byte stands where a token could start; the loop would stay there for ever and has no result. `char` is taken to be signed, so that bytes above seven bits step four places.
- Lowering.AsmState.LowerFunc: without the IDENTITY and RAW_DATA cases and the data section, for tokens that never reach it.
- Compiler.CompileFunc: one function; the loop over functions only repeats it.
- Source.CompileText: one body with given parameter names.
- Float, complex, conversion and debug rows of the instruction table: assembled and printed, but neither executed nor part of the round trip.
- Simulator.Sim.FourRegsInst: strcat, strpbrk, strncat, strchr and strnchr abort in the program, so that the step has no result; strcpy as a step has none either, since it may run forever; its loop is modelled on its own.
- Refinement.ExecutesInstr: says nothing where the instruction has no result: those, the float rows, a call with condition bits (which names no register), and control leaving the program.
- jmp and jmprel in programs: the assembler has no case for them; the step has.
- Simulator.Sim.CopyString: requires a distance at which the loop ends; on other memories it does not end (Memory.StopsExactly).
- Simulator.Sim.StepOnce: no result for words of float rows, halt and strcpy.
- Memory.MovesExactly: on blocks in whose span no cell comes twice, which in RAM are all.
- Division by zero in compiled code traps on many hosts; `host` gives it a value, so that results are about runs that go on.
- Overflow of the assembler's number reading, which C leaves undefined: numbers are unbounded.
- Overflow of signed multiplication: taken to wrap around.
- char is taken to be signed where the disassembler prints an immediate or a displacement.
- Disasm.ListingReadBack: streams of integer words with control byte 0; the disassembler prints nothing for others, or lines of float rows.
- Fixed buffers: a label name of sixteen characters or more, or more than four operands, makes the model's line parse fail; capacities of the label, fixup and output lists are not modelled.
- Messages on standard error, files, memory mapping, traces, dumps and performance counters: input and output only.
