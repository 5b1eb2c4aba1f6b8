# Kavya compiler core in Dafny

This project models the single-pass compiler of the Kavya scripting language
(`src/compiler.c`). The compiler is a Pratt parser that reads tokens one at a
time and writes bytecode straight into a chunk. It keeps a bounded stack of
local variables with their scope depths, and it recovers from errors with a
panic flag and `synchronize`. The project also models the runtime value
representation (`value.h`, `value.c`), the growth policy of growable buffers
(`memory.h`), and the command-line decisions of `src/main.c`.

Modules:

- `Tokens`: the token kinds of the scanner interface and the token record.
- `Bytecode`: the opcodes, raw operand bytes and the 16-bit big-endian
  encoding of jump distances, with the jump and loop layouts in a code
  sequence.
- `Values`: tagged values, `valuesEqual`, `printValue` and the `ValueArray`
  class with its write/init/free operations.
- `Memory`: `GROW_CAPACITY`, `GROW_ARRAY` and `FREE_ARRAY`.
- `Rules`: the parse rule table, and the opcodes each operator emits.
- `Scopes`: the locals stack described on values: name resolution, the
  duplicate check, which locals survive the end of a scope, and the shape
  the stack keeps between statements.
- `Compiler`: class `Compiler` holds the global parser, the current compiler
  and the chunk being compiled as fields. Every routine of `compiler.c` is a
  method that changes those fields. The scanner becomes a fixed sequence of
  tokens read through a cursor.
- `Cli`: `hasKavExtension` and the exit status of `main`.

What is proved, beyond each routine's own effect on the state:

- Parsing always terminates. Every parsing routine either consumes input or
  starts at the end of input. The proof uses a lexicographic measure: the
  input left, then a level per routine.
- The code only grows, except where a jump operand is patched. `hadError` is
  set exactly when something was reported. `compile` returns true exactly
  when nothing was reported, ends the chunk with `OP_RETURN`, and finishes
  with no locals left at depth 0.
- Each operator parses its operand at the level the rule table gives it:
  one above its own for a binary operator, unary for a prefix operator,
  `and` and `or` for those two. After a one-token operand, the operand
  takes the next operator exactly when that operator binds tightly enough.
- Between statements, the locals are stacked by depth and all initialized.
  A statement keeps every local of its own depth and below. A block or a
  `for` in a new scope pops exactly the locals its scope declared, one
  `OP_POP` each, and hands back the locals it found (when it was opened with
  a free slot).
- `synchronize` stops at the first recovery point after the error, as a
  recursive reference definition (`Resync`) gives it, and reports only the
  error tokens it skips.
- Jumps land where they should. For `if`, `while`, `and`, `or` and both
  forms of `for`, the operands decode to the intended targets. Any distance
  that does not fit in 16 bits was reported as an error.
- The duplicate check of a declaration looks at exactly the locals of the
  current scope. Resolution finds the innermost local with that name.
- The comparison opcodes (`!=`, `>=`, `<=` by negation) compute their
  operator's meaning.
- `valuesEqual` is structural equality, and so an equivalence.
- `writeValueArray` appends and grows the storage only when it is full.
- `hasKavExtension` accepts exactly the names ending in `.kav`.

The model follows the code as written, including these behaviours:

- `=` and `is` carry assignment precedence and have `binary` as their infix
  action. At the lowest precedence the infix loop of `parsePrecedence`
  therefore takes them as binary operators, and `binary` emits nothing for
  them. As a result, `1 + 1 = 2` compiles without an error. The
  "Invalid assignment target." branch (compiler.c:536-539) can never be
  reached; `ParsePrecedence` proves this and holds `assert false` there.
- Number, `true`, `false` and `null` have primary precedence but no infix
  action. A literal directly after an expression is therefore consumed by
  the infix loop and compiles to nothing.
- `!` has unary precedence and no infix action (compiler.c:479). A `!`
  directly after an operand, at any level up to unary, is therefore also
  consumed by the infix loop and compiles to nothing.
- `errorAt` does not look at the panic flag: every error is reported, even
  while panicking. It always sets both flags.
- `consume` on a mismatch reports and sets `hadError` only. It neither
  advances nor sets the panic flag.
- Newline, indent and semicolon have no entry in the rule table. They get a
  zero-initialised rule: no actions and the lowest precedence.
- `synchronize` stops at the end of input, after a newline token, or before
  a statement keyword.
- The two branches of `forStatement` differ only in the `)` consumed at
  compiler.c:660. The model writes them once, with a `hasParentheses` flag.
- When all 256 local slots are in use, `addLocal` reports an error. The
  following `markInitialized` then re-marks slot 255 with the current depth.
  The scope invariants (`Scopes.Kept`) allow for this.

## Model

| member | source | states |
|---|---|---|
| Tokens.Unquoted | src/compiler.c:340-344 | the text of a string literal is the lexeme without its first and last character |
| Bytecode.Encode16 | src/compiler.c:159-160 | a distance is written as two raw operand bytes |
| Bytecode.DecodeEncode | src/compiler.c:156-160 | the two bytes written for a distance read back as its low 16 bits; a distance up to 65535 reads back unchanged |
| Bytecode.EncodeInjective | src/compiler.c:197-203 | two distances that fit in 16 bits have different encodings |
| Bytecode.JumpLands | src/compiler.c:193-204 | a patched forward jump whose distance fits lands on the intended target |
| Bytecode.LoopLands | src/compiler.c:152-161 | a backward loop whose distance fits lands on the loop start |
| Bytecode.OperandsStay | src/compiler.c:141-144 | appending code, or patching elsewhere, leaves an operand and its target alone |
| Memory.GrowCapacity | src/include/memory.h:6-7 | 16 below 16, otherwise 1.5 times the capacity with the fraction dropped; always larger than the old capacity |
| Memory.GrowArray | src/include/memory.h:9-11 | a fresh buffer of the new size holding the old elements as far as both sizes reach |
| Memory.FreeArray | src/include/memory.h:13-14 | a reallocation to size zero |
| Values.BoolVal | src/include/value.h:27 | the result is bool-tagged and reads back as the given bool |
| Values.NullVal | src/include/value.h:28 | the result is null-tagged and no other tag test passes |
| Values.NumberVal | src/include/value.h:29 | the result is number-tagged and reads back as the given number |
| Values.TagTestsSeeOnlyTheTag | src/include/value.h:20-22 | values with the same tag pass the same IS_ tests |
| Values.ValuesEqual | src/value.c:41-57 | different tags are never equal; the result is exactly equality of the values |
| Values.StringEquality | src/value.c:48-53 | two string objects are equal exactly when their lengths and characters match |
| Values.ValuesEqualIsEquivalence | src/value.c:41-57 | valuesEqual is reflexive, symmetric and transitive |
| Values.PrintValue | src/value.c:30-39 | true prints "true", false prints "false", null prints "null" |
| Values.PrintedLiteralsDistinct | src/value.c:32-35 | the printed forms of the bool and null values tell them apart |
| Values.ValueArray.constructor | src/value.c:8-12 | a new array is empty, with capacity 0 and no storage |
| Values.ValueArray.Init | src/value.c:8-12 | afterwards the array is empty, with capacity 0 and no storage |
| Values.ValueArray.Write | src/value.c:14-23 | the contents become the old contents plus the value; the capacity grows by GROW_CAPACITY only when full, and the storage is kept otherwise |
| Values.ValueArray.Free | src/value.c:25-28 | the storage is released and the array is empty again |
| Rules.GetRule | src/compiler.c:467-510 | every infix action sits between assignment and factor precedence; a token with no action has the lowest precedence |
| Rules.BinaryCode | src/compiler.c:255-289 | code exactly for the ten arithmetic and comparison operators; at most two opcodes, the second always OP_NOT |
| Rules.UnaryCode | src/compiler.c:455-463 | one opcode exactly for `!` and `-` |
| Rules.LiteralCode | src/compiler.c:294-307 | one opcode exactly for false, null and true |
| Rules.StartsStatement | src/compiler.c:786-794 | the keywords recovery stops at; none of them can start an expression |
| Rules.ActionOwners | src/compiler.c:467-510 | which token kinds carry each prefix and infix action of the table |
| Rules.LoopStopsAtEof | src/compiler.c:509-526 | the infix loop never continues at end of input, and the end of input has no prefix action |
| Rules.InfixLoopConsumes | src/compiler.c:481-534 | `=` and `is` are taken by the infix loop exactly at assignment precedence and emit nothing; literals are always taken and have no infix action |
| Rules.AssignmentNeverLeftOver | src/compiler.c:526-539 | once the infix loop stops at assignment precedence, the next token is neither `=` nor `is` |
| Rules.BinaryOperandsBounded | src/compiler.c:247-253 | `binary` re-enters between assignment and unary precedence and emits at most two bytes |
| Rules.ComparisonCodeCorrect | src/compiler.c:255-274 | the opcodes of each comparison operator compute its meaning on ordered operands |
| Scopes.IdentifiersEqual | src/compiler.c:358-363 | two names are equal exactly when their lexemes are |
| Scopes.LastMatch | src/compiler.c:365-380 | the slot found has a matching name and no higher slot matches; -1 when none does |
| Scopes.ScopeStart | src/compiler.c:400-406 | the duplicate scan covers exactly the locals above the topmost enclosing-scope local |
| Scopes.ScopeStartUnique | src/compiler.c:400-406 | the stopping point of the duplicate scan is unique |
| Scopes.Duplicates | src/compiler.c:407-410 | the count is zero exactly when no scanned local has the name |
| Scopes.Surviving | src/compiler.c:233-238 | endScope keeps the locals below the first one deeper than the scope it returns to |
| Scopes.SurvivingUnique | src/compiler.c:233-238 | that count is unique |
| Scopes.LocalsNeedScope | src/compiler.c:394-398 | locals are in use only inside a local scope |
| Scopes.ScopeStartIsCurrentScope | src/compiler.c:394-411 | on an ordered stack, the duplicate scan sees exactly the locals of the current depth |
| Scopes.SurvivingIsEnclosingScope | src/compiler.c:229-239 | closing a scope keeps exactly the locals of the enclosing scopes, still ordered |
| Scopes.KeptNothing | src/compiler.c:601-611 | a statement that declares nothing keeps the locals |
| Scopes.KeptTrans | src/compiler.c:577-582 | statements compiled one after another keep the locals as each one does |
| Scopes.KeptOrdered | src/compiler.c:552-555 | a statement that keeps the locals keeps them ordered |
| Scopes.ScopeRestored | src/compiler.c:229-239 | closing a scope opened with a free slot leaves exactly the entry count and contents, and drops only locals of the closed scope |
| Scopes.ScopeDropped | src/compiler.c:229-239 | every local endScope drops belongs to the scope it closes |
| Scopes.ScopeClosed | src/compiler.c:229-239 | endScope after a scope that kept the enclosing locals returns to exactly those locals |
| Compiler.ForLayoutFromStages | src/compiler.c:640-674 | the clauses, the body and the final loop and patch of a for loop together form its layout |
| Compiler.Compiler.constructor | src/compiler.c:206-211 | a fresh compiler has no locals at depth 0, an empty chunk and no reports |
| Compiler.Compiler.NextNonError | src/compiler.c:105-112 | the first position that does not hold an error token |
| Compiler.Compiler.ScanErrors | src/compiler.c:105-112 | one report per error token skipped, carrying its diagnostic |
| Compiler.Compiler.ScanToken | src/scanner.c:31-40 | the next token, or the end of input past the last token |
| Compiler.Compiler.ErrorAt | src/compiler.c:69-88 | exactly one report is added and both flags are set |
| Compiler.Compiler.ErrorAtPrevious | src/compiler.c:90-93 | a report at the previous token |
| Compiler.Compiler.ErrorAtCurrent | src/compiler.c:95-98 | a report at the current token |
| Compiler.Compiler.Advance | src/compiler.c:100-113 | previous becomes the old current; current becomes the next non-error token; each error token skipped is reported |
| Compiler.Compiler.SkipErrorTokens | src/compiler.c:105-112 | the retry loop ends at the first non-error token, having reported every error token on the way |
| Compiler.Compiler.Consume | src/compiler.c:115-126 | advances on the expected kind; otherwise one report and hadError, with the tokens and the panic flag unchanged |
| Compiler.Compiler.Match | src/compiler.c:133-139 | advances exactly when the current token has the kind; otherwise nothing changes |
| Compiler.Compiler.MatchAssignment | src/compiler.c:432 | advances exactly when the current token is `=` or `is` |
| Compiler.Compiler.EmitByte | src/compiler.c:141-144 | appends the byte, and the previous token's line to the line table |
| Compiler.Compiler.EmitBytes | src/compiler.c:146-150 | appends both bytes and their lines |
| Compiler.Compiler.EmitCode | src/compiler.c:255-289 | appends the one or two bytes of an operator switch, each with the previous token's line |
| Compiler.Compiler.EmitLoop | src/compiler.c:152-161 | OP_LOOP and the encoded distance back to the loop start; a distance over 65535 is reported |
| Compiler.Compiler.EmitJump | src/compiler.c:163-169 | the instruction and two 0xff placeholder bytes; the result is the placeholder's position |
| Compiler.Compiler.EmitReturn | src/compiler.c:171-174 | appends OP_RETURN |
| Compiler.Compiler.MakeConstant | src/compiler.c:176-186 | the value is appended to the constants; the index, or 0 with a report past 255 |
| Compiler.Compiler.EmitConstant | src/compiler.c:188-191 | OP_CONSTANT and the index of the new constant |
| Compiler.Compiler.PatchJump | src/compiler.c:193-204 | the operand is overwritten with the distance to the end of the code, and nothing else changes; a distance over 65535 is reported |
| Compiler.Compiler.BeginScope | src/compiler.c:224-227 | the depth goes up by one |
| Compiler.Compiler.EndScope | src/compiler.c:229-239 | the depth goes down by one; the locals deeper than it are dropped, with one OP_POP each |
| Compiler.Compiler.ResolveLocal | src/compiler.c:365-380 | the innermost matching slot or -1; a match that is still uninitialized is reported |
| Compiler.Compiler.AddLocal | src/compiler.c:382-392 | a new uninitialized local on top; with all 256 slots in use, a report and no change |
| Compiler.Compiler.DeclareVariable | src/compiler.c:394-414 | nothing at depth 0; otherwise one report per same-named local of the current scope, then the new local |
| Compiler.Compiler.CheckDuplicates | src/compiler.c:400-411 | one report per local of the current scope with the same name |
| Compiler.Compiler.MarkInitialized | src/compiler.c:552-555 | the top local gets the current depth |
| Compiler.Compiler.Expression | src/compiler.c:572-575 | consumes input; when the expression starts with a prefix token, it stops at a token of the lowest precedence |
| Compiler.Compiler.ParsePrecedence | src/compiler.c:512-540 | a missing prefix action is reported and emits nothing; otherwise it stops at a token binding less tightly; after a one-token operand (string, number, literal) it stops right there when the next token binds less tightly, and goes past that token when it binds at least as tightly; the invalid-assignment branch is unreachable |
| Compiler.Compiler.ApplyPrefix | src/compiler.c:516-524 | runs the prefix action of the token passed; the chunk and reports only grow; a string, number or literal action reads no further token |
| Compiler.Compiler.ApplyInfix | src/compiler.c:529-533 | runs the infix action of the operator passed; the chunk and reports only grow |
| Compiler.Compiler.CompileGrouping | src/compiler.c:310-314 | an expression, then the closing parenthesis |
| Compiler.Compiler.CompileUnary | src/compiler.c:448-465 | the operand is parsed at unary precedence: it stops at a token that binds less tightly than a unary operator, and after a one-token operand it stops right there exactly when the next token binds less tightly; the code ends with the operator's opcode |
| Compiler.Compiler.CompileBinary | src/compiler.c:247-290 | the right operand is parsed one level above the operator: it stops at a token that binds no more tightly than the operator, and after a one-token operand it stops right there when the next token binds no more tightly and goes past it when it binds more tightly; the code ends with the operator's opcodes, none for `=` and `is` |
| Compiler.Compiler.CompileLiteral | src/compiler.c:292-308 | one opcode for false, null and true |
| Compiler.Compiler.CompileNumber | src/compiler.c:316-320 | the number's value becomes a new constant loaded by OP_CONSTANT |
| Compiler.Compiler.CompileString | src/compiler.c:340-344 | the unquoted text becomes a new constant loaded by OP_CONSTANT |
| Compiler.Compiler.CompileAsk | src/compiler.c:346-351 | the prompt's text becomes a constant, then OP_ASK; without a string, the text is cut from the `ask` token |
| Compiler.Compiler.CompileAnd | src/compiler.c:322-328 | a conditional jump over the pop and the right operand, landing at the end; the right operand is parsed at `and` precedence: it stops at a looser token, and after a one-token operand it stops right there exactly when the next token is looser |
| Compiler.Compiler.CompileOr | src/compiler.c:330-338 | a conditional jump to the pop and right operand, and a jump over them to the end; the right operand is parsed at `or` precedence: it stops at a looser token, and after a one-token operand it stops right there exactly when the next token is looser |
| Compiler.Compiler.IdentifierConstant | src/compiler.c:353-356 | the name's characters become a new constant |
| Compiler.Compiler.ResolveName | src/compiler.c:416-430 | a local slot with the local opcodes when a local matches; otherwise a new name constant with the global opcodes |
| Compiler.Compiler.CompileVariable | src/compiler.c:416-446 | the code ends with the get or set instruction for the innermost local or the global, with its operand |
| Compiler.Compiler.ParseVariable | src/compiler.c:542-550 | at depth 0, a name constant; inside a scope, operand 0 and a new uninitialized local |
| Compiler.Compiler.DefineVariable | src/compiler.c:557-565 | inside a scope, the top local is marked initialized; at depth 0, OP_DEFINE_GLOBAL with the operand |
| Compiler.Compiler.Initializer | src/compiler.c:590-597 | without `=` or `is`, the code gets OP_NULL |
| Compiler.Compiler.TheDeclaration | src/compiler.c:587-599 | at depth 0 the code ends with OP_DEFINE_GLOBAL and the name's constant; inside a scope the new local is on top, initialized at the current depth |
| Compiler.Compiler.ExpressionStatement | src/compiler.c:601-605 | the code ends with OP_POP, and input was consumed |
| Compiler.Compiler.WriteStatement | src/compiler.c:607-611 | the code ends with OP_WRITE |
| Compiler.Compiler.Synchronize | src/compiler.c:777-801 | ends in exactly the state `Resync` gives: the first recovery point, with the reports of the error tokens skipped on the way; panic is left only if no error token was met |
| Compiler.Compiler.Resync | src/compiler.c:777-801 | advancing one token at a time from the cursor, the first state at the end of input, after a newline or at a statement keyword; reports are only added |
| Compiler.Compiler.ResyncReportsScanErrors | src/compiler.c:777-801 | every report written while resynchronizing is the diagnostic of a skipped error token |
| Compiler.Compiler.Block | src/compiler.c:577-585 | declarations up to `}` or the end of input keep the locals of the depth |
| Compiler.Compiler.Declaration | src/compiler.c:803-816 | consumes input and keeps the locals of the depth |
| Compiler.Compiler.Statement | src/compiler.c:818-846 | consumes input and keeps the locals of the depth |
| Compiler.Compiler.ScopedBlock | src/compiler.c:836-841 | one OP_POP after the block per local of its scope; opened with a free slot, the count and contents of the locals are back to what they were |
| Compiler.Compiler.CloseScope | src/compiler.c:229-239 | after a scope that kept the enclosing locals, endScope returns to them, with one OP_POP per local dropped; every dropped local belongs to the closed scope; with a free slot at entry, exactly the entry count and contents remain |
| Compiler.Compiler.IfStatement | src/compiler.c:735-757 | the conditional jump lands on the pop after the jump over the else branch, and that jump lands at the end |
| Compiler.Compiler.ElseJump | src/compiler.c:745-748 | the jump over the else branch, the conditional jump patched to land after it, then a pop |
| Compiler.Compiler.ElseBranch | src/compiler.c:750-754 | the optional else block keeps the locals |
| Compiler.Compiler.ConditionJump | src/compiler.c:737-742 | the condition, a conditional jump and a pop |
| Compiler.Compiler.LoopEnd | src/compiler.c:771-774 | a loop back to the start, then the exit jump patched to land on a pop |
| Compiler.Compiler.WhileStatement | src/compiler.c:759-775 | the loop goes back to the condition, and the exit jump lands on the final pop |
| Compiler.Compiler.ForInitializer | src/compiler.c:620-638 | the initializer clause keeps the locals of the loop's scope; after `the` in a scope with a free slot the variable is the one new local, at the loop's depth, named by the token after `the`; otherwise no local is added |
| Compiler.Compiler.ForExpression | src/compiler.c:634-638 | consumes input; a lone comma is passed and emits nothing; otherwise an expression, then a comma is passed or "Expect ',' after initializer." is reported at the token found |
| Compiler.Compiler.ForVariable | src/compiler.c:620-633 | in a scope with a free slot, the loop variable is the one new local, at the current depth, named by its identifier; at depth 0 the code ends with OP_DEFINE_GLOBAL and the name's constant |
| Compiler.Compiler.ForCondition | src/compiler.c:642-652 | no exit jump exactly when the clause is a lone comma; then the jump to the body |
| Compiler.Compiler.ForExit | src/compiler.c:645-649 | the condition, a comma, a conditional jump and a pop |
| Compiler.Compiler.ForIncrement | src/compiler.c:653-660 | nothing for a lone comma, otherwise code ending with OP_POP |
| Compiler.Compiler.ForClauses | src/compiler.c:640-663 | the clauses laid out, with the jump to the body landing after the loop back to the condition |
| Compiler.Compiler.LoopOverIncrement | src/compiler.c:662-663 | a loop back to the condition, and the jump to the body patched to land after it |
| Compiler.Compiler.ForBody | src/compiler.c:665-666 | the body keeps the locals |
| Compiler.Compiler.ForEnd | src/compiler.c:668-674 | after the body, the loop is laid out as a whole, and every jump fits unless an error was reported |
| Compiler.Compiler.ForLoop | src/compiler.c:640-674 | the for loop's layout from its start; every jump fits unless an error was reported |
| Compiler.Compiler.ForScope | src/compiler.c:617-674 | the initializer, then the laid-out loop |
| Compiler.Compiler.ForStatement | src/compiler.c:613-733 | in its own scope, the laid-out loop followed by one OP_POP per local of the loop's scope; opened with a free slot, the count and contents of the locals are back to what they were |
| Compiler.Compiler.Declarations | src/compiler.c:857-860 | declarations up to the end of input keep the top-level state |
| Compiler.Compiler.InitScanner | src/compiler.c:850 | the scanner starts again at the first token |
| Compiler.Compiler.InitCompiler | src/compiler.c:206-211 | no locals, at depth 0 |
| Compiler.Compiler.Compile | src/compiler.c:848-863 | starts at the first token: every error token before the first real one is reported and makes the result false; true exactly when nothing was reported; the chunk ends with OP_RETURN; no locals remain |
| Cli.HasKavExtension | src/main.c:11-17 | names shorter than four characters are refused |
| Cli.KavSuffixAccepted | src/main.c:11-17 | a name is accepted exactly when it ends in ".kav" |
| Cli.UpperCaseSuffixRefused | src/main.c:16 | the comparison is case-sensitive |
| Cli.RunFileExit | src/main.c:50-60 | a compile error exits with 65, a runtime error with 70, success returns normally |
| Cli.ExitStatus | src/main.c:86-118 | more than one argument, or a name without ".kav", gives 64; otherwise the interpreter's result decides |
| Cli.ExitStatusClassifies | src/main.c:86-118 | status 0 exactly when there was nothing to run or the run succeeded |

## Left out

- The scanner (a Flex lexer) is not part of this model. The compiler reads a
  fixed sequence of tokens. The model assumes the scanner guarantees that
  string tokens span their quotes.
- `strtod` on a number token is the parameter `numberValue`.
- `%g` formatting and `printObject` are parameters of `Values.PrintValue`.
- Numbers are an opaque type with equality only. NaN's inequality with
  itself is not modelled.
- `reallocate` is taken as "a fresh buffer holding the old prefix". The
  allocator, chunk internals and the object heap are not part of this model.
  String objects are values compared by their characters.
- Output is not modelled: the text of error messages on stderr, the REPL
  prompt and its reading of lines. Each report keeps only the token it
  points at and a tag for its message.
- `readFile` exits with status 74 on I/O failure. That is input/output and
  is not modelled.
- Disassembly under `DEBUG_PRINT_CODE` is not modelled.
- The virtual machine that runs the chunk is not part of this model.
  `Rules.RunCompare` evaluates only the comparison opcodes.
- Memory.GrowCapacity: computes on unbounded integers and does not model the
  overflow of `capacity * 1.5` in a C `int`.
- Compiler.Compiler.Extends: states that the constants and the reports grow
  by length only, not that the old ones stay in place as a prefix. The
  stronger facts are stated by the routines that write them.
- Compiler.Compiler.Expression: states consumption, growth and where the
  expression stops, but not the code emitted for an expression as a whole.
  The code of each action is stated by that action's own method.
- Compiler.Compiler.ApplyPrefix: states only that the chunk and the reports
  grow; what each action emits is stated by that action's method.
- Compiler.Compiler.ApplyInfix: states only that the chunk and the reports
  grow; what each action emits is stated by that action's method.
- Compiler.Compiler.CompileGrouping: states only that the chunk and the
  reports grow.
- Compiler.Compiler.CompileVariable: does not state the new constants table.
  ResolveName states it.
- Compiler.Compiler.Block: states the locals, the depth and growth, not the
  code of the statements.
- Compiler.Compiler.Declaration: states the locals, the depth, growth and
  consumption, not the code of the statement.
- Compiler.Compiler.Statement: states the locals, the depth, growth and
  consumption, not the code of the statement.
- Compiler.Compiler.Compile: states the result, the final OP_RETURN, the
  final locals and the reports of the leading error tokens by number, not
  the code of the program as a whole, and not that those reports come first.
- Compiler.Compiler.ParsePrecedence: states that the infix loop takes the
  operator after a one-token operand exactly when it binds tightly enough.
  For longer operands it states only where the loop stops, not that it takes
  every tighter operator before that point.
- Compiler.Compiler.CompileBinary: states whether the right operand takes the
  next operator only when the operand is one token long.
- Compiler.Compiler.CompileUnary: states whether the operand takes the next
  operator only when the operand is one token long.
- Compiler.Compiler.CompileAnd: states whether the right operand takes the
  next operator only when the operand is one token long.
- Compiler.Compiler.CompileOr: states whether the right operand takes the
  next operator only when the operand is one token long.
- Compiler.Compiler.ForExpression: does not state the code of the
  expression; Expression does not state it either.
- Compiler.Compiler.ScopedBlock: promises that the locals are restored only
  when the scope was opened with fewer than 256 locals. With all slots in
  use, a declaration inside re-marks slot 255 for the inner scope, and
  endScope then drops that local too, as the code does.
- Compiler.Compiler.ForStatement: promises that the locals are restored only
  when the scope was opened with fewer than 256 locals, for the same reason.
