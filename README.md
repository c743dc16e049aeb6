# A verified model of simple-c-compiler-in-rust

This project models the core of `simple-c-compiler-in-rust`. The compiler covers a small subset of C:
- one `int` function;
- `return`, expression and `int` declaration statements;
- the unary operators `-` `~` `!`;
- `* / + -`, the comparisons, `== !=`, `&& ||` and assignment.

It emits x86-64 assembly text in AT&T syntax. The model covers each stage and proves properties of each.

- **Lexer** (`Lexer`). The split into token strings is a loop with a pending token. Classification checks punctuation and keywords, then tries `i64` parsing, and falls back to an identifier.
- **Parser** (`Parser`, `ParserLoops`, `StackFrames`, `StatementParser`, `FunctionParser`, with the printers in `Unparse` and the round trips in `RoundTrip`).
  - It is a recursive-descent parser over a token position.
  - Each binary level is specified by a pure function. It is implemented by a method whose `while` loop mirrors the source's `while let`.
  - Variables live in a stack frame, a class whose `add_var` moves the offset down by 8.
  - Printing a well-formed tree and parsing it back gives the tree (round trip). Whatever the parser returns prints back to exactly the tokens it consumed (soundness). This holds for expressions, statements and whole functions.
- **Emitter** (`Asm`). The assembly buffer is a class holding the emitted instructions. Its text is the rendering of those instructions. Each emitter method appends its instruction's text: one line for most, two lines (`.globl` and the label) for `declare_function`, and three for the function epilogue as rendered here. Clauses are numbered by a counter. A clause's state moves New → Started → Ended.
- **Generator** (`CodeGen`, `Generator`).
  - Each node's code is specified as a function of the node and of the clause counter it starts from.
  - The generator's imperative methods over the shared buffer are proved to append exactly that code and to advance the counter by the number of `||`/`&&` operators.
- **Correctness** (`Machine`, `Evaluator`, `Correctness`, `ProgramCorrectness`).
  - A small machine runs the emitted instructions: registers, flags, a stack, frame slots, and truncating 128-by-64-bit `idiv`.
  - An evaluator gives C's meaning on 64-bit integers.
  - The code of every expression the generator accepts leaves the expression's value in `%rax`, or faults on a division by zero, except where a division has a negative dividend (see the `Correctness.ExpressionCorrect` line under "Left out"). A function returns the value of its first `return`, with the same exception.
- **Labels** (`ClauseLabels`). The code of an expression numbered from `n` places the start and end label of each clause from `n` up to the counter after it, each exactly once, and no other label. Every jump in it targets a label placed after the jump. The statements of a function body share one numbering, so the same holds across the whole body.
- **Legacy front end and back end** (`LegacyParser`, `LegacyGenerator`).
  - The older parser consumes a token vector from the front. It is modelled as a class with a sequence field and proved against pure parse functions, with round trips and error positions.
  - The older generator builds strings. It is proved to produce the rendering of the same instruction lists the modular generator gives the equivalent tree, so it computes the same values, except for a division with a negative dividend, on which the correctness results are silent.

The source files come from different snapshots of the repository and do not all agree with each other. The model follows each file as written and mentions, under "Left out", the points where it had to reconcile them.

## Model

| member | source | states |
|---|---|---|
| Asm.RegisterNameInjective | src/asm.rs:10-19 | distinct registers print as distinct names |
| Asm.RenderOfAppend | src/asm.rs:53-193 | appending one instruction appends exactly its line to the text |
| Asm.ClauseLabelsDistinct | src/asm.rs:37-45 | `_clause_n` and `_end_n` labels are equal exactly when their numbers are, and no start label is an end label |
| Asm.Clause.constructor | src/asm.rs:21-35 | a clause is created in state New with the given number |
| Asm.Asm.constructor | src/asm.rs:47-51 | a new buffer has counter 0 and empty text |
| Asm.Asm.Emit | src/asm.rs:53-193 | the `push_str` step shared by every emitter method: the text grows by exactly the instruction's line and the counter is unchanged |
| Asm.Asm.DeclareFunction | src/asm.rs:54-61 | appends `.globl _name` and the label `_name:` |
| Asm.Asm.MovInt | src/asm.rs:63-67 | appends `mov $int, dest` and nothing else |
| Asm.Asm.Mov | src/asm.rs:69-73 | appends `mov src, dest` |
| Asm.Asm.Push | src/asm.rs:75-79 | appends `push src` |
| Asm.Asm.Pop | src/asm.rs:81-85 | appends `pop dest` |
| Asm.Asm.Ret | src/asm.rs:87-91 | appends `ret` |
| Asm.Asm.Add | src/asm.rs:93-97 | appends `add src, dest` |
| Asm.Asm.Sub | src/asm.rs:99-103 | appends `sub src, dest` |
| Asm.Asm.Imul | src/asm.rs:105-109 | appends `imul src, dest` |
| Asm.Asm.Idiv | src/asm.rs:111-115 | appends `idiv src` |
| Asm.Asm.Neg | src/asm.rs:117-121 | appends `neg src` |
| Asm.Asm.Cmp | src/asm.rs:123-127 | appends `cmp a, b` |
| Asm.Asm.CmpInt | src/asm.rs:129-133 | appends `cmp $int, src` |
| Asm.Asm.SetCondition | src/asm.rs:135-169 | appends the `sete`/`setne`/`setl`/`setle`/`setg`/`setge` line of the condition |
| Asm.Asm.Not | src/asm.rs:171-175 | appends `not src` |
| Asm.Asm.Jmp | src/asm.rs:177-181 | appends `jmp label` |
| Asm.Asm.Je | src/asm.rs:183-187 | appends `je label` |
| Asm.Asm.Jne | src/asm.rs:189-193 | appends `jne label` |
| Asm.Asm.FunctionReturn | src/generator/function.rs:24 | appends the function epilogue |
| Asm.Asm.NewClause | src/asm.rs:195-199 | the fresh clause is New and takes the old counter value; the counter moves on by one; no code is emitted |
| Asm.Asm.StartClause | src/asm.rs:201-212 | only a New clause can be started; it becomes Started and its start label is appended |
| Asm.Asm.EndClause | src/asm.rs:214-225 | only a Started clause can be ended; it becomes Ended and its end label is appended |
| Lexer.ParseTokenStrings | src/lexer.rs:37-61 | the loop emits exactly the token strings of the split specification |
| Lexer.ParseTokens | src/lexer.rs:14-35 | one token per token string, in order, each classified |
| Lexer.SplitNoEmpty | src/lexer.rs:43-52 | no token string is empty |
| Lexer.SplitShape | src/lexer.rs:40-58 | a token string is one punctuation character or has no space, newline or punctuation in it |
| Lexer.SplitKeepsCharacters | src/lexer.rs:37-61 | the emitted strings plus the pending token are the input minus spaces and newlines, in order |
| Lexer.SplitAfterSeparatorLosesNothing | src/lexer.rs:37-61 | input ending in a separator or punctuation loses no character |
| Lexer.SplitDropsTrailingToken | src/lexer.rs:60 | a token still pending at the end of the input is never emitted |
| Lexer.Classify | src/lexer.rs:18-31 | identifiers keep their text; an integer literal holds the value `parse::<i64>` gives |
| Lexer.ClassifyIntToString | src/lexer.rs:27-28 | every i64 in decimal is lexed back as that integer literal |
| Numerals.ParseI64 | src/lexer.rs:27 | accepts only an optional sign followed by decimal digits |
| Numerals.ParseI64OfIntToString | src/lexer.rs:27 | parsing the decimal text of any i64 gives it back |
| Numerals.IntToStringInjective | src/asm.rs:65 | distinct integers print differently |
| StackFrames.AddBinding | src/parser/mod.rs:17-20 | the offset drops by 8, the name is bound to the new offset, and other bindings are kept |
| StackFrames.AddFreshKeepsInvariant | src/parser/mod.rs:17-20 | adding a fresh name keeps one distinct 8-byte slot per name, filling the frame down to its offset |
| StackFrames.AddExistingShrinksTable | src/parser/mod.rs:17-20 | adding an already bound name breaks that invariant, because the old slot is lost |
| StackFrames.StackFrame.constructor | src/parser/mod.rs:10-14 | the default frame has offset 0 and no bindings, and satisfies the invariant |
| StackFrames.StackFrame.AddVar | src/parser/mod.rs:17-20 | the new state is the pure binding of the old one |
| Parser.UnaryOperatorForToken | src/parser/factor.rs:105-112 | `-` `~` `!` map to their operators, and every other token to none (iff per operator) |
| Parser.BinaryFactorOperatorForToken | src/parser/term.rs:23 | `*` and `/` map to their operators, and every other token to none |
| Parser.ExpressionOperatorForToken | src/parser/expression.rs:310-315 | `\|\|` and only it maps to Or |
| Parser.LogicalAndOperatorForToken | src/parser/expression.rs:317-322 | `&&` and only it maps to And |
| Parser.EqualityOperatorForToken | src/parser/expression.rs:324-330 | `==` and `!=` and only they map to their operators |
| Parser.RelationalOperatorForToken | src/parser/expression.rs:332-340 | `<` `<=` `>` `>=` and only they map to their operators |
| Parser.AdditiveOperatorForToken | src/parser/expression.rs:342-348 | `-` and `+` and only they map to their operators |
| Parser.ParseFactor | src/parser/factor.rs:26-49 | a factor consumes at least one token; the only error is "Invalid factor" |
| Parser.ParseWithParens | src/parser/factor.rs:51-73 | a success is enclosed in `(` `)`; no `(` first gives "Expecting '('"; the uncalled copy `parse_with_parens` in src/parser/expression.rs:140-158 does the same and is modelled by this member too |
| Parser.ParseUnaryOperation | src/parser/factor.rs:75-96 | a success starts with the operator's token; a non-operator first gives "Expecting ~ or ! or -" |
| Parser.ParseIntegerLiteral | src/parser/factor.rs:98-103 | succeeds exactly on an integer-literal token, returning its value and consuming it |
| Parser.ParseTerm | src/parser/term.rs:14-36 | a term consumes tokens and stops before anything other than `*` or `/` |
| Parser.TermTail | src/parser/term.rs:23-30 | the pairs end at the first non-multiplicative token; no operator means no pairs |
| Parser.ParseAdditive | src/parser/expression.rs:262-282 | stops before any operator of levels 1-2 |
| Parser.AdditiveTail | src/parser/expression.rs:269-276 | the pairs end at the first token other than `+` or `-` |
| Parser.ParseRelational | src/parser/expression.rs:237-260 | stops before any operator of levels 1-3 |
| Parser.RelationalTail | src/parser/expression.rs:244-251 | the pairs end at the first non-relational token |
| Parser.ParseEquality | src/parser/expression.rs:212-235 | stops before any operator of levels 1-4 |
| Parser.EqualityTail | src/parser/expression.rs:219-226 | the pairs end at the first token other than `==` or `!=` |
| Parser.ParseLogicalAnd | src/parser/expression.rs:187-210 | stops before any operator of levels 1-5 |
| Parser.LogicalAndTail | src/parser/expression.rs:194-201 | the pairs end at the first token other than `&&` |
| Parser.ParseLogicalOr | src/parser/expression.rs:160-185 | stops before any binary operator |
| Parser.LogicalOrTail | src/parser/expression.rs:169-176 | the pairs end at the first token other than `\|\|` |
| Parser.ParseAssignment | src/parser/expression.rs:284-308 | a success is `name =` then an expression, and yields an assignment to that name; a non-identifier first gives its error |
| Parser.ParseExpression | src/parser/expression.rs:114-138 | an expression consumes tokens and stops before any binary operator |
| ParserLoops.ParseTerm | src/parser/term.rs:14-36 | the `while let` loop returns exactly what the term specification gives |
| ParserLoops.ParseAdditive | src/parser/expression.rs:262-282 | the loop equals the additive specification |
| ParserLoops.ParseRelational | src/parser/expression.rs:237-260 | the loop equals the relational specification |
| ParserLoops.ParseEquality | src/parser/expression.rs:212-235 | the loop equals the equality specification |
| ParserLoops.ParseLogicalAnd | src/parser/expression.rs:187-210 | the loop equals the `&&` specification |
| ParserLoops.ParseLogicalOr | src/parser/expression.rs:160-185 | the loop equals the `\|\|` specification |
| Unparse.UnaryOperatorToken | src/parser/factor.rs:105-112 | the printed token is the only token the parser maps to that operator |
| RoundTrip.ExpressionRoundTrip | src/parser/expression.rs:114-138 | a well-formed expression's tokens, wherever they stand and whatever operator-free tokens follow, parse back to it and end where its tokens end |
| RoundTrip.ParseAfterPrint | src/parser/expression.rs:114-138 | parsing printed tokens plus any rest not starting with an operator gives the expression and consumes exactly its tokens |
| RoundTrip.OrRoundTrip | src/parser/expression.rs:160-185 | round trip at the `\|\|` level |
| RoundTrip.AndRoundTrip | src/parser/expression.rs:187-210 | round trip at the `&&` level |
| RoundTrip.EqualityRoundTrip | src/parser/expression.rs:212-235 | round trip at the equality level |
| RoundTrip.RelationalRoundTrip | src/parser/expression.rs:237-260 | round trip at the relational level |
| RoundTrip.AdditiveRoundTrip | src/parser/expression.rs:262-282 | round trip at the additive level |
| RoundTrip.TermRoundTrip | src/parser/term.rs:14-36 | round trip at the term level |
| RoundTrip.FactorRoundTrip | src/parser/factor.rs:26-49 | round trip for constants, unary operations and parenthesised expressions |
| RoundTrip.ExpressionSound | src/parser/expression.rs:114-138 | a parsed expression prints back to exactly the consumed tokens, reads no identifier and assigns only declared names |
| RoundTrip.PrintAfterParse | src/parser/expression.rs:114-138 | the consumed prefix of the tokens is the printed result |
| RoundTrip.OrSound | src/parser/expression.rs:160-185 | soundness at the `\|\|` level |
| RoundTrip.AndSound | src/parser/expression.rs:187-210 | soundness at the `&&` level |
| RoundTrip.EqualitySound | src/parser/expression.rs:212-235 | soundness at the equality level |
| RoundTrip.RelationalSound | src/parser/expression.rs:237-260 | soundness at the relational level |
| RoundTrip.AdditiveSound | src/parser/expression.rs:262-282 | soundness at the additive level |
| RoundTrip.TermSound | src/parser/term.rs:14-36 | soundness at the term level |
| RoundTrip.FactorSound | src/parser/factor.rs:26-49 | soundness for factors |
| StatementParser.ParseReturn | src/parser/statement.rs:60-80 | a success is `return` … `;`; no `return` first gives "Expecting 'return'" |
| StatementParser.ParseExpressionStatement | src/parser/statement.rs:82-91 | a success ends with `;`; an expression error is passed through unchanged |
| StatementParser.ParseVariableDeclaration | src/parser/statement.rs:93-128 | `int name [= e] ;`; the initializer is present exactly when `=` follows the name; errors for a missing `int` or identifier |
| StatementParser.StatementOutcome | src/parser/statement.rs:20-58 | a statement ends with `;`; a declaration's name is fresh; the errors are "Invalid statement" or a duplicate declaration |
| StatementParser.Bind | src/parser/statement.rs:39-55 | a declaration binds its name at the next slot down; other statements leave the frame alone |
| StatementParser.BindKeepsInvariant | src/parser/statement.rs:48-50 | binding a fresh declaration keeps the frame invariant |
| StatementParser.ParseStatement | src/parser/statement.rs:20-58 | returns the specified outcome; the frame changes only by binding a successful declaration |
| StatementParser.ReturnSound | src/parser/statement.rs:60-80 | a parsed return prints back to exactly the consumed tokens |
| StatementParser.DeclarationSound | src/parser/statement.rs:93-128 | a parsed declaration prints back to exactly the consumed tokens |
| StatementParser.StatementRoundTrip | src/parser/statement.rs:20-58 | a well-formed statement's tokens parse back to it and stop after its `;` |
| StatementParser.StatementSound | src/parser/statement.rs:20-58 | a parsed statement is well formed and prints back to exactly the consumed tokens |
| FunctionParser.ParseBody | src/parser/function.rs:45-68 | only the last statement can be a return; `}` first gives no statements; errors are statement errors |
| FunctionParser.FunctionOutcome | src/parser/function.rs:13-75 | each wrong or missing header token gives its own error, in order; a success starts with `int name ( ) {` |
| FunctionParser.ParseFunction | src/parser/function.rs:13-75 | the header checks and the statement loop give exactly the specified outcome |
| FunctionParser.FrameAfterBinds | src/parser/function.rs:45-68 | the final frame binds exactly the names bound before plus the names declared |
| FunctionParser.FrameAfterKeepsInvariant | src/parser/function.rs:45-68 | declaring only fresh names keeps one distinct slot per name |
| FunctionParser.BodyRoundTrip | src/parser/function.rs:45-68 | a printed well-formed body parses back to its statements and final frame |
| FunctionParser.BodySound | src/parser/function.rs:45-68 | a parsed body is well formed, matches the tokens and is closed by `}` unless it ends with a return |
| FunctionParser.FunctionRoundTrip | src/parser/function.rs:13-75 | a printed well-formed function, followed by anything, parses back to its name, statements and frame |
| FunctionParser.FunctionSound | src/parser/function.rs:13-75 | a parsed function is well formed and prints back to its tokens; its frame binds exactly the declared names at slots -8, -16, … |
| CodeGen.ExpressionCode | src/generator/expression.rs:17-42 | an expression's code uses one clause number per `\|\|` and `&&` in it |
| CodeGen.OrCode | src/generator/expression.rs:17-42 | the `\|\|` level uses one clause per operator in it |
| CodeGen.AndCode | src/generator/expression.rs:44-68 | the `&&` level likewise |
| CodeGen.EqualityCode | src/generator/expression.rs:70-89 | clause use of the equality level |
| CodeGen.RelationalCode | src/generator/expression.rs:91-116 | clause use of the relational level |
| CodeGen.AdditiveCode | src/generator/expression.rs:118-136 | clause use of the additive level |
| CodeGen.TermCode | src/generator/term.rs:7-28 | clause use of a term |
| CodeGen.FactorCode | src/generator/factor.rs:10-30 | clause use of a factor |
| CodeGen.StatementCode | src/generator/statement.rs:5-12 | the clauses of a return are its expression's |
| CodeGen.StatementsPrefix | src/generator/function.rs:15-17 | the statements, one after another, take exactly the sum of their expressions' clauses |
| CodeGen.FunctionCode | src/generator/function.rs:7-25 | a function's code leaves the counter at its start plus the clauses of all its statements |
| ClauseLabels.ExpressionLabels | src/generator/expression.rs:24 | code numbered from `n` places exactly the start and end labels of clauses `n` up to `n` plus its number of `\|\|`/`&&`, each once, and its jumps go forward to them |
| ClauseLabels.OrLabels | src/generator/expression.rs:17-42 | the same for the code of the `\|\|` level and of each of its prefixes |
| ClauseLabels.AndLabels | src/generator/expression.rs:44-68 | the same for the `&&` level |
| ClauseLabels.EqualityLabels | src/generator/expression.rs:70-89 | the same for the equality level |
| ClauseLabels.RelationalLabels | src/generator/expression.rs:91-116 | the same for the relational level |
| ClauseLabels.AdditiveLabels | src/generator/expression.rs:118-136 | the same for the additive level |
| ClauseLabels.TermLabels | src/generator/term.rs:7-28 | the same for a term |
| ClauseLabels.FactorLabels | src/generator/factor.rs:10-30 | the same for a factor |
| ClauseLabels.StatementsLabels | src/generator/function.rs:15-17 | across the statements of a body, numbered one after another, every clause label is placed once and every jump goes forward |
| ClauseLabels.ClauseWellLabelled | src/generator/expression.rs:24-38 | one clause: its start label, the right operand numbered after it, then its end label; its two jumps go forward to those labels |
| ClauseLabels.WellLabelledAppend | src/generator/expression.rs:22-39 | code for clauses `[lo, mid)` followed by code for `[mid, hi)` places the labels of `[lo, hi)` once each, with its jumps still forward |
| ClauseLabels.JumpsForward | src/asm.rs:177-193 | in such code a jump's target is placed after the jump and nowhere at or before it |
| ClauseLabels.PlacedOnce | src/asm.rs:201-225 | in such code each clause label in range is placed at exactly one position |
| ClauseLabels.EarlierAbsent | src/generator/expression.rs:24 | code numbered from `lo` places no label of a clause numbered below `lo` |
| ClauseLabels.OrClauseStep | src/generator/expression.rs:22-39 | one `\|\|` pair more appends its clause, whose right operand does not place the clause's end label |
| ClauseLabels.AndClauseStep | src/generator/expression.rs:49-65 | one `&&` pair more, likewise |
| Generator.OpenOrClause | src/generator/expression.rs:24-31 | takes a fresh clause, emits the short-circuit test and starts it |
| Generator.OpenAndClause | src/generator/expression.rs:51-57 | the same for `&&` |
| Generator.CloseClause | src/generator/expression.rs:34-38 | normalises rax to 0/1 and ends the clause |
| Generator.OrClauseAsm | src/generator/expression.rs:22-39 | one `\|\|` pair appends its clause code with the right operand numbered after it |
| Generator.AndClauseAsm | src/generator/expression.rs:49-65 | one `&&` pair likewise |
| Generator.CompareAsm | src/generator/expression.rs:77-87 | appends `cmp`, `mov $0`, and the `set` of the condition |
| Generator.AdditiveOperatorAsm | src/generator/expression.rs:126-134 | appends `add`, or `sub` then `mov` |
| Generator.FactorOperatorAsm | src/generator/term.rs:15-26 | appends `imul`, or the division sequence |
| Generator.UnaryOperatorAsm | src/generator/factor.rs:35-47 | appends `neg`, the `!` sequence, or `not` |
| Generator.ExpressionAsm | src/generator/expression.rs:17-42 | the buffer grows by exactly the expression's specified code and the counter ends where the code says |
| Generator.LogicalAndAsm | src/generator/expression.rs:44-68 | the same for `&&` expressions |
| Generator.EqualityAsm | src/generator/expression.rs:70-89 | the same for equality expressions |
| Generator.RelationalAsm | src/generator/expression.rs:91-116 | the same for relational expressions |
| Generator.AdditiveAsm | src/generator/expression.rs:118-136 | the same for additive expressions |
| Generator.TermAsm | src/generator/term.rs:7-28 | the same for terms |
| Generator.FactorAsm | src/generator/factor.rs:10-30 | the same for factors |
| Generator.UnaryOperationAsm | src/generator/factor.rs:32-48 | the same for unary operations |
| Generator.StatementAsm | src/generator/statement.rs:5-12 | the same for a return statement |
| Generator.FunctionAsm | src/generator/function.rs:7-25 | the same for a function |
| Evaluator.ApplyFactor | src/generator/term.rs:15-26 | division fails exactly on a zero divisor; a negative dividend is kept apart; otherwise it truncates |
| Correctness.ExpressionCorrect | src/generator/expression.rs:17-42 | run from a state whose frame slots hold the variables, an expression's code leaves its value in rax with stack and frame unchanged, or faults on a division by zero |
| Correctness.OrCorrect | src/generator/expression.rs:17-42 | `\|\|` code computes the short-circuit value, 0 or 1, except for a negative dividend inside it |
| Correctness.AndCorrect | src/generator/expression.rs:44-68 | `&&` code computes the short-circuit value, 0 or 1, except for a negative dividend inside it |
| Correctness.EqualityCorrect | src/generator/expression.rs:70-89 | equality code computes 0 or 1, except for a negative dividend inside it |
| Correctness.RelationalCorrect | src/generator/expression.rs:91-116 | relational code computes 0 or 1, with the left operand compared to the right, except for a negative dividend inside it |
| Correctness.AdditiveCorrect | src/generator/expression.rs:118-136 | additive code computes the wrapped sum or difference, except for a negative dividend inside it |
| Correctness.TermCorrect | src/generator/term.rs:7-28 | term code computes the wrapped product, or for a non-negative dividend the truncated quotient, or faults on a zero divisor; silent on a negative dividend anywhere inside it |
| Correctness.FactorCorrect | src/generator/factor.rs:10-48 | factor code computes constants, variables and unary operations, except for a negative dividend inside a parenthesised subexpression |
| Correctness.GeneratedNegativeDivision | src/generator/term.rs:19-25 | the emitted division of -7 by 2 gives 9223372036854775804, not C's -3 |
| ProgramCorrectness.StatementCorrect | src/generator/statement.rs:5-12 | a return statement's code returns the expression's value, except for a negative dividend inside it |
| ProgramCorrectness.FunctionCorrect | src/generator/function.rs:7-25 | a function returns its first statement's value, or 0 when it has none |
| LegacyParser.TokenQueue.constructor | src/parser.rs:53 | the queue holds the given tokens |
| LegacyParser.TokenQueue.Shift | src/parser.rs:198-204 | removes and returns the first token; on empty input returns nothing and leaves the queue |
| LegacyParser.OperatorForToken | src/parser.rs:206-213 | an operator exactly for the three unary tokens |
| LegacyParser.OperatorTokenInverse | src/parser.rs:206-213 | each operator has exactly one token |
| LegacyParser.ExpressionParse | src/parser.rs:171-196 | leaves a suffix of its input |
| LegacyParser.StatementParse | src/parser.rs:140-169 | leaves a suffix of its input |
| LegacyParser.HeaderParse | src/parser.rs:62-138 | leaves a suffix of its input |
| LegacyParser.ExpressionRoundTrip | src/parser.rs:171-196 | an expression's tokens parse back to it, whatever follows |
| LegacyParser.ExpressionParseSound | src/parser.rs:171-196 | a success took exactly the tokens of its result |
| LegacyParser.ExpressionErrorIsInvalid | src/parser.rs:171-196 | the only expression error is ExpressionInvalid |
| LegacyParser.StatementRoundTrip | src/parser.rs:140-169 | a statement's tokens parse back to it |
| LegacyParser.StatementParseSound | src/parser.rs:140-169 | a success took exactly the tokens of its result |
| LegacyParser.FunctionRoundTrip | src/parser.rs:62-138 | a function's tokens parse back to it, whatever follows `}` |
| LegacyParser.HeaderParseSound | src/parser.rs:62-138 | a success took exactly the tokens of its result |
| LegacyParser.ProgramParseExact | src/parser.rs:52-60 | a program parses to `f` iff its tokens start with `f`'s tokens |
| LegacyParser.HeaderErrorAt | src/parser.rs:66-117 | the first wrong header token decides the error and is consumed |
| LegacyParser.HeaderRunsOut | src/parser.rs:66-117 | input ending inside a correct header is FunctionInvalid |
| LegacyParser.ParseExpression | src/parser.rs:171-196 | the method's result and remaining queue are the specification's |
| LegacyParser.ParseStatement | src/parser.rs:140-169 | the same for statements |
| LegacyParser.ParseFunction | src/parser.rs:62-138 | the same for functions |
| LegacyParser.ParseProgram | src/parser.rs:52-60 | returns the program specification's outcome on the caller's tokens |
| LegacyGenerator.ExpressionAsm | src/generator.rs:25-45 | the text is the rendering of the expression's code |
| LegacyGenerator.BinaryTermAsm | src/generator.rs:28-42 | one loop turn appends the rendering of push, term, pop and operator |
| LegacyGenerator.AdditiveOperatorAsm | src/generator.rs:33-41 | appends the rendering of `add`, or `sub` then `mov` |
| LegacyGenerator.TermAsm | src/generator.rs:47-70 | the text is the rendering of the term's code |
| LegacyGenerator.BinaryFactorAsm | src/generator.rs:50-67 | one loop turn appends the rendering of push, factor, pop and operator |
| LegacyGenerator.FactorOperatorAsm | src/generator.rs:55-66 | appends the rendering of `imul` or the division sequence |
| LegacyGenerator.FactorAsm | src/generator.rs:72-84 | the text is the rendering of the factor's code |
| LegacyGenerator.UnaryOperationAsm | src/generator.rs:86-104 | the text is the rendering of the operand's code and the operator's |
| LegacyGenerator.StatementAsm | src/generator.rs:15-23 | the expression's text followed by `ret` |
| LegacyGenerator.FunctionAsm | src/generator.rs:8-13 | `.globl`, the label, then the statement's text |
| LegacyGenerator.ProgramAsm | src/generator.rs:3-6 | the text of its function |
| LegacyGenerator.SameExpressionCode | src/generator.rs:25-45 | the older generator's code is the modular generator's code for the lifted tree |
| LegacyGenerator.SameTermCode | src/generator.rs:47-70 | the same for terms |
| LegacyGenerator.SameFactorCode | src/generator.rs:72-84 | the same for factors |
| LegacyGenerator.ExpressionCorrect | src/generator.rs:25-45 | the code leaves the value of the lifted expression in rax, or faults on division by zero, except for a negative dividend |
| LegacyGenerator.FunctionCorrect | src/generator.rs:8-23 | a function's code returns its expression's value, except for a negative dividend |

## Left out

- The command line and file I/O of `main.rs`: no program text is read. The lexer takes the contents as a string.
- The `println!` of the offending token on a wrong return type in the older parser is output only and is not modelled.
- `parse_with_parens` in src/parser/expression.rs:140-158 is a second copy of the factor parser's parenthesis case and nothing calls it. It has no member of its own, and `Parser.ParseWithParens` stands for both copies.
- `parser/program.rs` and `generator/program.rs` only delegate to the function level. The function-level members stand for them.
- Panics are not modelled as behaviour:
  - Starting or ending a clause in the wrong state panics. The model makes it a precondition of `StartClause` and `EndClause`, which the generator always meets.
  - Indexing an empty token vector panics. The model totalises it: a loop stops and a factor alternative fails.
  - The `expect` calls panic on an undeclared variable or a missing operator. They are unreachable given the parser's contracts, and the generator's precondition rules them out.
- The clause counter is an `i64` in the source and a natural number in the model; overflow after 2^63 clauses is not modelled. Likewise the stack frame's `current_offset` and its slot offsets are `i64` in src/parser/mod.rs:12-13 and `int` in `StackFrames`; an offset below -2^63 (more than 2^60 variables) is not modelled.
- The machine only follows forward jumps: it looks for a jump's label in the code after the jump. `ClauseLabels.ExpressionLabels` and `ClauseLabels.JumpsForward` prove that in expression code each label is placed once and every jump's label comes after the jump, so an assembler would resolve each jump to the same place.
- Label uniqueness is proved for expression code and function bodies, not for a whole function. `declare_function` (src/asm.rs:54-60) places the label `_` followed by the function's name, so a C function named `clause_0` would get the label `_clause_0` and clash with clause 0's start label.
- Correctness.ExpressionCorrect: says nothing about a division whose dividend is negative. For such a division the emitted code clears `%rdx` instead of sign-extending, so it does not compute C's signed quotient (`Correctness.GeneratedNegativeDivision`). The evaluator keeps that case apart as `NegativeDividend`.
- ProgramCorrectness.FunctionCorrect: like `ExpressionCorrect`, it is silent on a negative dividend.
- Correctness.OrCorrect, Correctness.AndCorrect, Correctness.EqualityCorrect, Correctness.RelationalCorrect, Correctness.AdditiveCorrect, Correctness.TermCorrect, Correctness.FactorCorrect and ProgramCorrectness.StatementCorrect: likewise silent when the node, or any operand or parenthesised subexpression inside it, holds a division with a negative dividend. Their `Computes`, `Delivers` and `Returned` conclusions hold trivially on the evaluator's `NegativeDividend` result.
- LegacyGenerator.ExpressionCorrect: silent on a negative dividend, as `Correctness.ExpressionCorrect` is. The older generator emits the same division with `%rdx` cleared (src/generator.rs:59-65), as `LegacyGenerator.SameFactorCode` shows.
- LegacyGenerator.FunctionCorrect: likewise silent on a negative dividend.
- The repository's modules come from different snapshots, and the model reconciles them:
  - `factor.rs`'s parser takes no stack frame, while `term.rs` passes one. The frame is threaded through.
  - The factor parser as written has no identifier case. The generator's `Factor::Identifier` case and its `RbpOffset` register exist in the data model and the code, while the parser never produces them.
  - `Asm::function_return`, the multiplicative operator mapper and the `ExpressionOperator` name are called by generator/function.rs, generator/term.rs and parser/expression.rs, but no module of the snapshot modelled here defines them. They are modelled as the calls expect.
  - lexer.rs's `Token` enum has no operator tokens (`MinusSign`, `Plus` and the rest), so the lexer's output never reaches the parser's operator cases. The model's `Token` is the union of the tokens every module uses.
  - The text of `function_return` is made up. The model renders it as `mov %rbp, %rsp`, `pop %rbp`, `ret`. That epilogue does not match the emitted prologue: `declare_function` emits only `.globl` and the label, and pushes no `%rbp`. The machine treats `FunctionReturn` as a plain return and ignores its stack effect.
  - The text of a stack-slot operand is made up too. Register `RbpOffset(o)` is rendered `o(%rbp)`, but no line of `asm.rs` defines that form, and nothing in the emitted code sets `%rbp` up as a frame pointer. The machine reads and writes slots by offset alone.
  - `asm.mov(&0, &Rax)` in the function generator is modelled as `mov $0, %rax`.
  - The generator handles only `return` statements, so the other statements and assignments have no code. `CodeGen.Generable` and the `ExpressionIn` preconditions require this.
- Vectors shifted in place (`Vec::remove(0)`) become a sequence field that the methods reassign. Aliasing of the vector is not modelled.
- The older parser that built the tree the older generator consumes is not part of the snapshot modelled here. The tree is declared in `LegacyGenerator` as the generator uses it.
