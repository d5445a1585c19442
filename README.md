# A C-minus parser and MIPS code generator, modelled in Dafny

This project models two core stages of a small compiler for C-minus, a teaching subset of C.

- **Parser** (`parser.py`): a recursive-descent parser. It turns the lexer's token stream into
  a syntax tree of `ASTNode`s. It reports syntax errors and recovers from them by panic mode,
  skipping tokens up to a synchronising one. At the end it checks that the last top-level
  declaration is the function `main` and that no tokens follow.
- **Code generator** (`cgen.py`): walks that tree and writes MIPS assembly. The output is a
  fixed header, then per function a label, a prologue and an epilogue. Between them it writes
  frame reservations for variable declarations and loads, arithmetic and stores for expression
  statements. It keeps three module-level counters: `symbol_table`, `offset_counter` and
  `register_counter`. It also uses a `CodeEmitter` that owns the output and a label counter.

Both stages update state step by step, so the model is imperative.

- **Parser.** Class `Parser.Parser` holds the parser's globals (`token`/`lexeme` as a cursor
  into the token sequence, `_error`, and the printed reports). Each grammar procedure is a
  method of it.
- **Code generator.** `Cgen.CodeEmitter` and `Cgen.Generator` are classes with the fields
  the source updates.
- **Proofs.** Every method is proved to return, and to leave the object in, exactly what a pure
  function of the old state gives. Those functions live in `ParserSpec` and `CgenSpec`, and
  the properties of the system are lemmas about them in `ParserProps` and `CgenProps`.

Files:

| file | module | contents |
|---|---|---|
| `wrappers.dfy` | `Wrappers` | `Option` |
| `tokens.dfy` | `Tokens` | `TokenType` of `globalTypes.py`, tokens, the end-of-input token |
| `ast.dfy` | `Ast` | `ASTNode` as a value, `add`, the shapes of the trees the parser builds |
| `text.dfy` | `Text` | decimal rendering (f-strings) and reading (`int()`) of numbers |
| `parser_spec.dfy` | `ParserSpec` | the meaning of every parser procedure |
| `parser.dfy` | `Parser` | the parser as an object |
| `parser_props.dfy` | `ParserProps` | properties of the parser |
| `cgen_spec.dfy` | `CgenSpec` | the meaning of every generator procedure |
| `cgen.dfy` | `Cgen` | the emitter and the generator as objects |
| `cgen_props.dfy` | `CgenProps` | properties of the generator, and that parsed trees can be generated |

Conventions of the model:

- **Tokens.** The token stream is a sequence of tokens (kind, lexeme, line). Once the sequence
  is exhausted, the lexer answers ENDFILE with an empty lexeme on the last line.
- **Errors.** `error(msg)` raises the flag and appends a report (line, message kind). Every
  parser function is proved to raise the flag exactly when it adds a report, never to lower the
  number of reports, and never to move the cursor back.
- **Exceptions.** The only exception the generator can raise on a parsed tree comes from
  `int(lexeme)` on an array size that does not read as a number. Generator methods return
  `ok == false` for it. Nothing more is written after it, and the lines already written stay.
- **Registers.** A register is `$t` followed by the counter modulo 10. A lowering that returns
  Python's `None` (an unhandled kind) is the value `None`. When written into an instruction it
  prints as `None`, as the f-string would.

## Model

| member | source | states |
|---|---|---|
| `Tokens.EndToken` | globalTypes.py:3-39 | past the end of input the lexer answers ENDFILE, which is never a skipped comment token |
| `Ast.Add` | parser.py:17-23 | `add` keeps kind, lexeme and line, and appends a node, or every element of a list in order, with nothing dropped |
| `Text.NatToString` | cgen.py:126 | the decimal text of a number is non-empty, all digits, and has no leading zero unless it is `0` |
| `Text.IntToString` | cgen.py:137 | the text of a frame offset starts with `-` exactly when the offset is negative |
| `Text.IntOf` | cgen.py:107 | `int()` of a lexeme yields a value exactly when the lexeme is a non-empty string of decimal digits |
| `Text.DigitsValueOfNatToString` | cgen.py:107 | reading back the decimal text of `n` gives `n` (induction on the digits) |
| `Text.IntOfNatToString` | cgen.py:107 | `int()` inverts the f-string rendering of a natural number |
| `Text.NatToStringInjective` | cgen.py:17 | different numbers have different decimal texts |
| `Text.IntToStringInjective` | cgen.py:137 | different offsets have different texts, so distinct slots print differently |
| `ParserSpec.SkipFrom` | parser.py:67-68 | the comment-skipping loop stops at the first token that is not a comment, having passed only comments |
| `ParserSpec.Start` | parser.py:92 | the first `advance` fetches the first non-comment token, with no error and no report yet |
| `ParserSpec.Advance` | parser.py:64-68 | `advance` moves strictly forward before the end, stays put once the token sequence is exhausted, skips only comments, and never touches flag or reports |
| `ParserSpec.Error` | parser.py:50-55 | `error` raises the flag and appends one report at the current line, cursor unchanged |
| `ParserSpec.Panic` | parser.py:72-74 | panic recovery stops at the first token in the sync set or at ENDFILE, having passed only other tokens |
| `ParserSpec.Match` | parser.py:78-86 | `match` consumes the expected token and nothing else when it is current, and always stays a legal successor state |
| `ParserSpec.MatchMismatch` | parser.py:82-86 | a failed `match` reports expected and found kinds, recovers to `;`, `}` or ENDFILE, and consumes that token only if it is the expected one |
| `ParserSpec.PanicIgnoresReports` | parser.py:72-74 | where recovery stops depends on the cursor only, not on earlier errors |
| `ParserSpec.Expression` | parser.py:296-318 | `expression` returns an expression tree and consumes at least one token before the end |
| `ParserSpec.SimpleExpression` | parser.py:322-331 | `simple_expression` returns an expression tree and makes progress |
| `ParserSpec.AdditiveExpression` | parser.py:335-344 | `additive_expression` returns an expression tree and makes progress |
| `ParserSpec.AdditiveTail` | parser.py:337-343 | the `+`/`-` loop keeps the expression shape of the tree built so far |
| `ParserSpec.Term` | parser.py:348-357 | `term` returns an expression tree and makes progress |
| `ParserSpec.TermTail` | parser.py:350-356 | the `*`/`/` loop keeps the expression shape of the tree built so far |
| `ParserSpec.Factor` | parser.py:361-391 | `factor` returns an expression tree (an `error_factor` on bad input) and makes progress |
| `ParserSpec.Args` | parser.py:396-400 | `args` is empty before `)` and otherwise holds one argument list |
| `ParserSpec.ArgList` | parser.py:404-410 | `arg_list` holds one or more expressions |
| `ParserSpec.ArgListTail` | parser.py:407-409 | the `,` loop keeps every child an expression |
| `ParserSpec.Statement` | parser.py:239-248 | `statement` returns a statement tree and makes progress |
| `ParserSpec.ExpressionStmt` | parser.py:252-257 | `expression_stmt` returns an `expression_stmt` node with at most one expression and makes progress |
| `ParserSpec.SelectionStmt` | parser.py:261-271 | `selection_stmt` returns a condition, a branch and an optional else branch, and consumes the `if` |
| `ParserSpec.IterationStmt` | parser.py:275-282 | `iteration_stmt` returns a condition and a body, and consumes the `while` |
| `ParserSpec.ReturnStmt` | parser.py:286-292 | `return_stmt` returns an optional expression and consumes the `return` |
| `ParserSpec.CompoundStmt` | parser.py:207-213 | `compound_stmt` returns its local declarations then its statements, and consumes a leading `{` |
| `ParserSpec.LocalDeclarations` | parser.py:217-227 | `local_declarations` is a lexeme-less node whose children are all declarations |
| `ParserSpec.Declarations` | parser.py:109-110 | the declaration loop stops exactly when the current token is neither `int` nor `void`, and collects only declarations |
| `ParserSpec.StatementList` | parser.py:231-235 | `statement_list` stops exactly at `}` or ENDFILE, and every child is a statement |
| `ParserSpec.Statements` | parser.py:233-234 | the statement loop ends at `}` or ENDFILE with only statements collected |
| `ParserSpec.VarNode` | parser.py:136-142 | `add_var` builds `[type, ID]` with the given type and name, plus a NUM child exactly when an array size is given |
| `ParserSpec.VarDeclarator` | parser.py:144-151 | after a name, a `var_decl` of that type and name, with three children exactly when `[` follows |
| `ParserSpec.MoreDeclarators` | parser.py:152-166 | the `,` loop adds only `var_decl`s of the declared type (their names, in order, are those of `ParserProps.MoreDeclaratorsIds`) |
| `ParserSpec.DeclaratorAfterComma` | parser.py:153-166 | one turn after `,` adds only `var_decl`s of the declared type; without an identifier it reports and adds nothing, and with one the first `var_decl` added carries that identifier's name |
| `ParserSpec.Declaration` | parser.py:115-168 | `declaration` returns one declaration node or a list of `var_decl`s, and consumes the type token |
| `ParserSpec.FunDeclaration` | parser.py:125-133 | the function branch returns one `fun_decl` of type, name, params and body, and makes progress |
| `ParserSpec.VarDeclaration` | parser.py:135-168 | the variable branch returns a declaration item, a single `var_decl` when unwrapped |
| `ParserSpec.Params` | parser.py:172-179 | `params` is empty, a single `VOID`, or one parameter list |
| `ParserSpec.ParamList` | parser.py:183-189 | `param_list` holds one or more parameters |
| `ParserSpec.MoreParams` | parser.py:186-188 | the `,` loop adds only parameters |
| `ParserSpec.Param` | parser.py:193-203 | `param` is a type, then an identifier if present |
| `ParserSpec.Program` | parser.py:107-111 | `program` returns a root whose children are all declarations, stopping at a token other than `int` or `void` |
| `ParserSpec.Parse` | parser.py:90-103 | `parser` returns the tree of `program` with no error exactly when nothing was reported, the input ends there, and the last declaration, if any, is the function `main` |
| `Parser.Parser.constructor` | parser.py:35-40 | the parser starts before the first token, with no error and no reports |
| `Parser.Parser.SkipComments` | parser.py:67-68 | the loop moves the cursor to the first non-comment token |
| `Parser.Parser.Advance` | parser.py:64-68 | leaves the state `ParserSpec.Advance` gives |
| `Parser.Parser.Error` | parser.py:50-60 | leaves the state `ParserSpec.Error` gives |
| `Parser.Parser.PanicRecovery` | parser.py:72-74 | the loop leaves the state `ParserSpec.Panic` gives |
| `Parser.Parser.Match` | parser.py:78-86 | leaves the state `ParserSpec.Match` gives |
| `Parser.Parser.Expression` | parser.py:296-318 | returns the tree and leaves the state of `ParserSpec.Expression` |
| `Parser.Parser.SimpleExpression` | parser.py:322-331 | returns the tree and leaves the state of `ParserSpec.SimpleExpression` |
| `Parser.Parser.AdditiveExpression` | parser.py:335-344 | its loop returns the tree and leaves the state of `ParserSpec.AdditiveExpression` |
| `Parser.Parser.Term` | parser.py:348-357 | its loop returns the tree and leaves the state of `ParserSpec.Term` |
| `Parser.Parser.Factor` | parser.py:361-391 | returns the tree and leaves the state of `ParserSpec.Factor` |
| `Parser.Parser.Args` | parser.py:396-400 | returns the tree and leaves the state of `ParserSpec.Args` |
| `Parser.Parser.ArgList` | parser.py:404-410 | its loop returns the tree and leaves the state of `ParserSpec.ArgList` |
| `Parser.Parser.Statement` | parser.py:239-248 | returns the tree and leaves the state of `ParserSpec.Statement` |
| `Parser.Parser.ExpressionStmt` | parser.py:252-257 | returns the tree and leaves the state of `ParserSpec.ExpressionStmt` |
| `Parser.Parser.SelectionStmt` | parser.py:261-271 | returns the tree and leaves the state of `ParserSpec.SelectionStmt` |
| `Parser.Parser.IterationStmt` | parser.py:275-282 | returns the tree and leaves the state of `ParserSpec.IterationStmt` |
| `Parser.Parser.ReturnStmt` | parser.py:286-292 | returns the tree and leaves the state of `ParserSpec.ReturnStmt` |
| `Parser.Parser.CompoundStmt` | parser.py:207-213 | returns the tree and leaves the state of `ParserSpec.CompoundStmt` |
| `Parser.Parser.LocalDeclarations` | parser.py:217-227 | its loop returns the tree and leaves the state of `ParserSpec.LocalDeclarations` |
| `Parser.Parser.StatementList` | parser.py:231-235 | its loop returns the tree and leaves the state of `ParserSpec.StatementList` |
| `Parser.Parser.Declaration` | parser.py:115-133 | returns the item and leaves the state of `ParserSpec.Declaration` |
| `Parser.Parser.FunDeclaration` | parser.py:125-133 | returns the item and leaves the state of `ParserSpec.FunDeclaration` |
| `Parser.Parser.VarDeclarator` | parser.py:144-151 | returns the node and leaves the state of `ParserSpec.VarDeclarator` |
| `Parser.Parser.VarDeclaration` | parser.py:135-168 | returns the item and leaves the state of `ParserSpec.VarDeclaration` |
| `Parser.Parser.MoreDeclarators` | parser.py:152-166 | its loop, `break` included, returns the list and leaves the state of `ParserSpec.MoreDeclarators` |
| `Parser.Parser.DeclaratorAfterComma` | parser.py:153-166 | returns the list and leaves the state of `ParserSpec.DeclaratorAfterComma` |
| `Parser.Parser.Params` | parser.py:172-179 | returns the tree and leaves the state of `ParserSpec.Params` |
| `Parser.Parser.ParamList` | parser.py:183-189 | its loop returns the tree and leaves the state of `ParserSpec.ParamList` |
| `Parser.Parser.Param` | parser.py:193-203 | returns the tree and leaves the state of `ParserSpec.Param` |
| `Parser.Parser.Program` | parser.py:107-111 | its loop returns the tree and leaves the state of `ParserSpec.Program` |
| `Parser.Parser.Parse` | parser.py:90-103 | from a fresh parser, returns the tree and leaves the state of `ParserSpec.Parse` |
| `ParserProps.AssignmentShape` | parser.py:296-318 | `=` after a simple expression builds an `assign` named after the left side, with the right side (read right-associatively) then the left side's index |
| `ParserProps.AssignToNonVariable` | parser.py:298-300 | a left side that is not a variable is reported, and the assignment is built anyway |
| `ParserProps.SingleRelop` | parser.py:322-331 | a simple expression holds at most one relational operator, with both operands additive |
| `ParserProps.FoldLeftLast` | parser.py:337-343 | in a left fold the last operator read is the root, its right operand is the last operand read, and its left operand is the fold of all the earlier steps |
| `ParserProps.FoldLeftTwo` | parser.py:337-343 | `a op1 b op2 c` folds to `(a op1 b) op2 c` |
| `ParserProps.AdditiveLeftAssoc` | parser.py:337-343 | the `+`/`-` loop yields exactly the left fold, over the tree so far, of the operators and terms it reads, and stops at the first token that is neither `+` nor `-` |
| `ParserProps.AdditiveExpressionFold` | parser.py:335-344 | `additive_expression` is the left fold, over its first term, of the `+`/`-` operators and terms after it |
| `ParserProps.TermLeftAssoc` | parser.py:350-356 | the `*`/`/` loop yields exactly the left fold of the operators and factors it reads, and stops at the first token that is neither `*` nor `/` |
| `ParserProps.TermFold` | parser.py:348-357 | `term` is the left fold, over its first factor, of the `*`/`/` operators and factors after it |
| `ParserProps.FactorError` | parser.py:389-391 | a token that cannot start a factor is reported, exactly it is consumed, and an `error_factor` leaf stands in its place |
| `ParserProps.MoreDeclaratorsIds` | parser.py:152-166 | the `var_decl`s the comma loop adds are named, in order, after the identifiers it reads: one per `,` followed by an identifier, up to the first `,` without one |
| `ParserProps.VarDeclarationFlattens` | parser.py:135-168 | a variable declaration yields one `var_decl` per name, all of the declared type, named in source order (the first name, then the identifiers after the commas), and unwrapped exactly when there is a single one |
| `CgenSpec.Reg` | cgen.py:126 | a register name is `$t` and one digit |
| `CgenSpec.Emit` | cgen.py:10-11 | `emit` appends one line and changes nothing else |
| `CgenSpec.Comment` | cgen.py:13-14 | `emit_comment` appends one `# ` line and changes nothing else |
| `CgenSpec.Expression` | cgen.py:122-168 | `gen_expression` writes at least its comment line, only appends output, never touches table or offset, and never lowers the register counter |
| `CgenSpec.Number` | cgen.py:125-129 | a number takes exactly the next register and returns it |
| `CgenSpec.Variable` | cgen.py:131-140 | a variable takes exactly the next register and returns it, found or not |
| `CgenSpec.Assignment` | cgen.py:160-168 | an assignment only appends output and leaves table and offset alone |
| `CgenSpec.Operator` | cgen.py:142-158 | an operator advances the counter and returns the last register taken |
| `CgenSpec.ExpressionStmtCode` | cgen.py:116-120 | an expression statement only appends output and leaves table and offset alone |
| `CgenSpec.Code` | cgen.py:37-58 | `generate_code` only appends output and never lowers the register counter |
| `CgenSpec.CodeList` | cgen.py:43-44 | lowering children in order only appends output |
| `CgenSpec.FunctionCode` | cgen.py:63-82 | `gen_function` only appends output and never lowers the register counter |
| `CgenSpec.CompoundCode` | cgen.py:85-98 | `gen_compound_stmt` only appends output |
| `CgenSpec.CodeGen` | cgen.py:26-35 | the output begins with the four header lines whatever the tree |
| `Cgen.CodeEmitter.constructor` | cgen.py:6-8 | a new emitter has no output and label counter 0 |
| `Cgen.CodeEmitter.Emit` | cgen.py:10-11 | appends exactly the line |
| `Cgen.CodeEmitter.EmitComment` | cgen.py:13-14 | appends exactly the comment line |
| `Cgen.CodeEmitter.NewLabel` | cgen.py:16-19 | returns the prefix followed by the old counter, which moves on by one; output untouched |
| `Cgen.Generator.constructor` | cgen.py:21-24 | the globals start empty and at zero |
| `Cgen.Generator.CodeGenerate` | cgen.py:26-35 | writes the header into a new emitter whose label counter stays 0, then leaves output and globals as `CgenSpec.CodeGen` gives |
| `Cgen.Generator.GenerateCode` | cgen.py:37-58 | leaves output and globals as `CgenSpec.Code` gives, and keeps the emitter's label counter |
| `Cgen.Generator.GenerateAll` | cgen.py:43-44 | the `for` loop leaves output and globals as `CgenSpec.CodeList` gives and keeps the emitter's label counter |
| `Cgen.Generator.GenFunction` | cgen.py:63-82 | leaves output and globals as `CgenSpec.FunctionCode` gives, and keeps the emitter's label counter |
| `Cgen.Generator.EmitProlog` | cgen.py:69-73 | appends exactly the five prologue lines |
| `Cgen.Generator.EmitEpilog` | cgen.py:78-82 | appends exactly the five epilogue lines |
| `Cgen.Generator.GenCompoundStmt` | cgen.py:85-98 | its two loops leave output and globals as `CgenSpec.CompoundCode` gives, and keep the emitter's label counter |
| `Cgen.Generator.GenVarDecl` | cgen.py:100-113 | leaves output and globals as `CgenSpec.VarDeclCode` gives, including the `int()` failure, and keeps the emitter's label counter |
| `Cgen.Generator.Reserve` | cgen.py:109-113 | leaves output and globals as `CgenSpec.Reserve` gives, and keeps the emitter's label counter |
| `Cgen.Generator.GenExpressionStmt` | cgen.py:116-120 | leaves output and globals as `CgenSpec.ExpressionStmtCode` gives, and keeps the emitter's label counter |
| `Cgen.Generator.GenExpression` | cgen.py:122-168 | returns the register and leaves output and globals as `CgenSpec.Expression` gives, and keeps the emitter's label counter |
| `CgenProps.LabelsDistinct` | cgen.py:16-19 | with one prefix, two labels are equal exactly when their counter values are |
| `CgenProps.FirstDigit` | cgen.py:17 | in a label with a digit-free prefix, the first digit comes right after the prefix |
| `CgenProps.DigitFreeLabelsDistinct` | cgen.py:16-19 | with digit-free prefixes, a label determines both the prefix and the number |
| `CgenProps.LabelCollision` | cgen.py:16-19 | prefix `L1` at counter 0 and prefix `L` at counter 10 give the same label |
| `CgenProps.RegisterCount` | cgen.py:122-168 | lowering an expression advances the register counter by one per number, variable and operator node it reaches |
| `CgenProps.RegisterWraps` | cgen.py:126 | two counter values name the same register exactly when they agree modulo 10 |
| `CgenProps.OperatorResult` | cgen.py:142-158 | an operator's result register is the last one its lowering took |
| `CgenProps.RegisterPeriod` | cgen.py:126 | registers repeat every ten allocations |
| `CgenProps.NumberThenTenRegisters` | cgen.py:125-158 | a number followed by an operator expression that takes ten registers gets that expression's result in its own register |
| `CgenProps.OperandsCollide` | cgen.py:142-158 | an operator whose left operand is a number and whose right operand takes ten registers reads one register for both operands |
| `CgenProps.OperatorLowering` | cgen.py:142-158 | left operand first, then right, then `op result, left, right` in a new register; `+` gives add and any other addop sub, `*` gives mul and any other mulop div |
| `CgenProps.NumberLoad` | cgen.py:124-129 | a number writes its comment and `li` of its lexeme into the next register |
| `CgenProps.VariableLoad` | cgen.py:131-140 | a variable loads from its frame slot when the function declared it, else writes an error comment; the register is taken either way |
| `CgenProps.VariableIgnoresIndex` | cgen.py:131-140 | an indexed variable lowers like its bare name |
| `CgenProps.UnhandledExpression` | cgen.py:122-168 | any other kind (call, comparison, ...) writes only the comment line and returns no register |
| `CgenProps.AssignmentStore` | cgen.py:160-168 | an assignment stores the right side's register into the name's slot, or writes an error comment, and takes no register of its own |
| `CgenProps.AssignmentIgnoresIndex` | cgen.py:160-168 | the index of an assignment target is never lowered |
| `CgenProps.ExpressionStmtLayout` | cgen.py:116-120 | an expression statement writes its two comments around its expression's code and never stops generation |
| `CgenProps.ExpressionStmtFirstChildOnly` | cgen.py:118-119 | only the first child of an expression statement is lowered |
| `CgenProps.DeclSizes` | cgen.py:105-107 | a scalar takes one slot; an array whose size lexeme is the decimal of `k` takes `k` |
| `CgenProps.VarDeclEffect` | cgen.py:100-113 | a declaration succeeds exactly when its size reads; then the offset drops by 4 * size, the name maps to it, and two lines are written; on failure nothing changes |
| `CgenProps.ReserveBelow` | cgen.py:109-113 | reserving keeps the frame well formed (non-positive multiples of 4), and a positive size lands strictly below every earlier slot |
| `CgenProps.CodeKeepsFrame` | cgen.py:37-58 | every node keeps the frame well formed |
| `CgenProps.CodeListKeepsFrame` | cgen.py:43-44 | every list of nodes keeps the frame well formed |
| `CgenProps.FunctionKeepsFrame` | cgen.py:63-76 | a function leaves a well formed frame whatever came before it |
| `CgenProps.CompoundKeepsFrame` | cgen.py:85-98 | a compound statement keeps the frame well formed |
| `CgenProps.FunctionForgetsOuterFrame` | cgen.py:64-66 | a function's code depends on the output so far and the register counter only, not on earlier slots |
| `CgenProps.FunctionLayout` | cgen.py:63-82 | a function writes its label, the prologue, its children from an empty frame, then the epilogue ending in `jr $ra` unless it stopped |
| `CgenProps.IgnoredKinds` | cgen.py:37-58 | kinds other than the five dispatched on write nothing and change nothing |
| `CgenProps.ExprGenerable` | cgen.py:142-163 | every expression the parser builds has the operands `gen_expression` indexes |
| `CgenProps.DeclGenerable` | cgen.py:63-113 | every declaration the parser builds can be generated |
| `CgenProps.LeafGenerable` | cgen.py:37-58 | nodes `generate_code` passes over can always be generated |
| `CgenProps.StmtGenerable` | cgen.py:85-120 | every statement the parser builds can be generated |
| `CgenProps.CompoundGenerable` | cgen.py:85-98 | every compound statement the parser builds can be generated |
| `CgenProps.ParsedTreeGenerable` | cgen.py:26-58 | the tree `parser` returns for any token sequence can be handed to `codeGen` |

## Left out

- The lexer (`lexer.py`), the semantic analyser and `main.py` are not part of this model. Tokens come in as a sequence, and the `globales` set-up is left out.
- The text printed by `error` is left out: the source line and the caret under the lexeme. A report keeps only the line and the kind of message.
- `ASTNode.__repr__` and the `print(root)` of `parser` are left out, because they only print.
- `ASTNode` is a value, not an object: `add` returns the extended node. The source never shares or mutates a node after building it, so aliasing is not modelled.
- The output file is a sequence of lines, without the trailing `'\n'` of each write and without opening the file.
- `generate_code(None)` is not modelled: every child a tree holds is a node, so it cannot arise.
- `Text.IntOf`: reads ASCII digit strings only, and any other string stands for the `ValueError` (`ok == false`). Python's `int()` differs in two ways that can reach it. First, the lexer accepts any character for which `str.isdigit()` holds (`Tarea 3/lexer.py:132`, `Tarea 3/lexer.py:233`), so it can produce non-ASCII decimal digits such as `١٢`. `int()` reads those (as 12), but the model stops generation. Second, since Python 3.11, `int()` raises for decimal strings longer than 4300 digits, where the model still yields the value. The sign, whitespace and underscores that `int()` also accepts never occur in a NUM lexeme.
- The generator's methods require `CgenSpec.Generable`: the children they index exist. On other trees the source raises `IndexError`. `CgenProps.ParsedTreeGenerable` proves every parsed tree meets it.
- The parser methods other than `Parse` require a valid state: the cursor is in range and not on a comment. `Parse` requires a fresh parser, because the source runs it once per loaded module.
- `ParserSpec.Match` (and every parser function): the states are proved to move forward, with the flag raised exactly when a report was added. The stronger fact that earlier reports stay unchanged, a prefix of the new ones, is not proved; only the count is tracked.
- The recursion depth is unbounded. The source's recursive descent, in the parser and in the generator's walk, raises `RecursionError` on deep nesting of `(`, `{` or operators (CPython's default limit is 1000 frames), and the model does not stop there.
- `new_label` is modelled, but no generator procedure calls it, as in the source.
- The design notes in the comments at cgen.py:172-243 describe code that is not there, so they are left out.

Where the code and the system's description differ, the model follows the code:

- The description has a fresh register counter per function. `register_counter` is never reset (`CgenProps.FunctionLayout` carries it on).
- The description has a calling convention, labels for `if`/`while` and positive parameter offsets. The generator emits none of them: statements other than expression statements and compound statements write nothing (`CgenProps.IgnoredKinds`), and calls write only their comment (`CgenProps.UnhandledExpression`).
- The description has `int x int y;` declaring two variables. The parser declares `x` only: the missing `;` is reported and panic recovery skips `int y`.

Properties of the code that the model shows:

- Top-level variables get `$fp` offsets, which the next function discards (`CgenProps.FunctionForgetsOuterFrame`).
- A zero-size array shares its offset with the slot reserved before it (`CgenProps.ReserveBelow` promises a strictly lower slot only for size at least 1).
- Labels from prefixes that end in a digit can collide (`CgenProps.LabelCollision`).
- Registers wrap after ten, with no liveness check. The left operand can be overwritten while the right one is lowered (`CgenProps.OperandsCollide`).
