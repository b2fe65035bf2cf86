# SPP compiler core, modelled in Dafny

SPP is a toy scripting language. Its compiler turns source text straight into x86-64 NASM
assembly text in three stages, and this project models all three:

- **Lexer** (`src/lexer.rs`). One scan from left to right turns characters into tokens:
  - maximal digit runs become `Number` tokens;
  - `+ - * / ( ) ; . =` each become one token;
  - `"…"` is a string literal, taken verbatim;
  - a word is a keyword (`println`, `print`, `const`) or an `Ident`;
  - whitespace is skipped, and any other character is fatal.
- **Parser** (`src/parser.rs`). A recursive-descent parser over a token vector with a mutable
  `pos`:
  - `parse_term` handles `+ -` over `parse_factor`;
  - `parse_factor` handles `* /` over `parse_primary`;
  - `parse_exit_expr` recognises `exit(expr);`.
- **Code generator** (`src/codegen.rs`). `generate_nasm` first collects the string literals
  into labelled data lines. It then lowers `print`, `exit` and `const` statements into
  instructions, using:
  - a constants table;
  - the helpers `generate_expression_code`, `generate_string_concat` and `generate_print_expr`.

  Finally it assembles the document: the data section, the `.text` header, the instructions,
  and two fixed runtime routines.

The model takes each file's own form:

- **The lexer.** `Lexer.Lex` is a `while` loop over the input. Its inner loops (`ReadNumber`,
  `ReadString`, `ReadWord`) are methods too. Each is proved equal to the function `Lexed`,
  which scans one token at a time. The properties of the lexer are lemmas about `Lexed`.
- **The parser.** `Parser.Parser` is a class with the token sequence and the `pos` field.
  `eat` advances `pos`, and every parse method is proved equal to a function over
  `(tokens, pos)`, such as `ExprAt` or `TermAt`.
- **The AST.** `Ast.Expr` is the union of the forms the code generator matches on. The
  parser builds only its `Number`/`BinaryOp` subset over the four arithmetic operators
  (`Ast.IsParserExpr`). `Number` carries an `Int32`.
- **The generator's buffers.** The code generator's mutable locals live in the class
  `Generator.Emitter`:
  - the data and text sections;
  - the literal labels;
  - the label counter;
  - the constants table.

  Each helper is a method that appends to these buffers. Each is proved to produce exactly
  what a function of `CodeGen` specifies, or to stop with the `panic!` that function reports
  as a `Fault`.
- **The emitted text.** Instructions are `Asm.Line` values, rendered to text at the end.
- **What the emitted code does.** A small x86-64 machine (`Machine`) runs the emitted
  instructions over 64-bit words. `Correctness` uses it to prove the following:
  - expression code computes the operator's 64-bit meaning;
  - `exit` exits with the right status;
  - `print` of booleans, `null`, numbers, string literals and arrays writes the expected text.

  `print "text"` writes the text followed by a NUL byte, not a newline
  (`Correctness.PrintStringLiteralCorrect`). The length `s.len() + 1` at
  `src/codegen.rs:94` counts the terminating 0 of the `msg` data line. That line, written at
  `src/codegen.rs:621`, holds no newline.

Where the repository's wider description of SPP goes beyond these files, the model follows the
code. That description mentions comments, escape sequences, `let`/assignment/`if`, a parser that
restores its position on failure, and a zero-initialised storage region. The lexer has no
comments or escapes, parsers never restore `pos`, and `generate_nasm` ignores every
top-level form except `print`, `exit` and `const`.

## Model

| member | source | states |
|---|---|---|
| Lexer.Lex | src/lexer.rs:22-137 | the token loop returns exactly `Lexed(input)`: the tokens in source order, or the first fatal character |
| Lexer.ScanAt | src/lexer.rs:27-134 | one pass of the loop body dispatches on the first character exactly as `ScanOne` does |
| Lexer.ReadNumber | src/lexer.rs:30-38 | the digit accumulation loop consumes the whole digit run and yields its decimal value, or the overflow panic |
| Lexer.ReadString | src/lexer.rs:81-96 | the string loop takes every character up to the next `"` verbatim and needs a closing quote |
| Lexer.ReadWord | src/lexer.rs:104-125 | the identifier loop takes the alphanumeric run and classifies it |
| Lexer.WordToken | src/lexer.rs:115-124 | exactly `println`, `print` and `const` are keywords, and every other word is `Ident` of its own text |
| LexerFacts.LexDigitRun | src/lexer.rs:30-38 | a maximal digit run is one `Number` token with the run's decimal value when it fits in i32, and a panic otherwise |
| LexerFacts.LexNatToString | src/lexer.rs:30-38 | the decimal rendering of any `n <= i32::MAX` lexes back to `[Number(n)]` |
| LexerFacts.LexPunctuation | src/lexer.rs:41-79 | each of `+ - * / ( ) ; . =` consumes one character and yields its one token |
| LexerFacts.LexDoubleEquals | src/lexer.rs:98-101 | `==` lexes as two `Equals` |
| LexerFacts.LexDecimalPoint | src/lexer.rs:30-79 | `1.5` lexes as `Number(1) Dot Number(5)` |
| LexerFacts.LexStringLiteral | src/lexer.rs:81-93 | a quoted body with no `"` becomes one `StringLiteral` of exactly that body |
| LexerFacts.LexUnterminated | src/lexer.rs:92-96 | a string with no closing quote is fatal |
| LexerFacts.LexWord | src/lexer.rs:104-125 | a maximal alphanumeric run starting with a letter becomes `WordToken` of the run |
| LexerFacts.LexWhitespace | src/lexer.rs:127-129 | whitespace yields no token |
| LexerFacts.LexUnrecognized | src/lexer.rs:131-133 | any other character is fatal, and the error names it |
| LexerFacts.LexRejectsSymbols | src/lexer.rs:131-133 | `_`, `{`, `<`, `,` and `'` are each fatal |
| LexerFacts.LexedLength | src/lexer.rs:22-137 | every token consumes at least one character, so there are at most as many tokens as characters |
| LexerFacts.LexedNonNegative | src/lexer.rs:30-49 | no `Number` token is negative, because `-` is always a separate `Minus` |
| LexerFacts.LexedAppend | src/lexer.rs:22-137 | tokens come out in source order: after a whitespace boundary, lexing `a + b` is lexing `a` and then `b` |
| Parser.TokenAt | src/parser.rs:18-20 | `tokens.get(pos)`: present exactly when `pos` is in range, and then the token at `pos` |
| Parser.ExprAt | src/parser.rs:57-59 | expression parsing always moves forward. A result is an arithmetic tree, and parsing stops at a token that is not `+ - * /` |
| Parser.TermAt | src/parser.rs:62-87 | as for `ExprAt`, for `parse_term` |
| Parser.FactorAt | src/parser.rs:90-114 | `parse_factor` moves forward and stops at a token that is not `* /` |
| Parser.PrimaryAt | src/parser.rs:117-132 | `parse_primary` always eats at least one token and yields only arithmetic trees |
| Parser.ExitAt | src/parser.rs:31-54 | `parse_exit_expr` always eats at least one token, and any result is an arithmetic tree |
| Parser.Parser.constructor | src/parser.rs:12-15 | a new parser holds the tokens at position 0 |
| Parser.Parser.Peek | src/parser.rs:18-20 | the token at `pos`, or none past the end; `pos` is unchanged (a function of the state) |
| Parser.Parser.Eat | src/parser.rs:23-28 | `pos` grows by exactly one, and the result is the token at the old position, or none past the end |
| Parser.Parser.ParseExitExpr | src/parser.rs:31-54 | the method's result and final `pos` are `ExitAt(tokens, old pos)` |
| Parser.Parser.ParseExpr | src/parser.rs:57-59 | the method's result and final `pos` are `ExprAt(tokens, old pos)` |
| Parser.Parser.ParseTerm | src/parser.rs:62-87 | the `while let` loop rebinding `node` ends in `TermAt(tokens, old pos)` |
| Parser.Parser.ParseFactor | src/parser.rs:90-114 | the `while let` loop rebinding `node` ends in `FactorAt(tokens, old pos)` |
| Parser.Parser.ParsePrimary | src/parser.rs:117-132 | the method's result and final `pos` are `PrimaryAt(tokens, old pos)` |
| ParserFacts.OpToken | src/parser.rs:68-71 | each arithmetic operator has a token that the term or the factor level maps back to that operator |
| ParserFacts.ParseRoundTrip | src/parser.rs:57-132 | every tree over the four operators, written fully parenthesised, parses back to itself and consumes all its tokens |
| ParserFacts.ExprParsesTokens | src/parser.rs:57-132 | the tokens of a tree followed by any non-operator token parse to that tree and stop before that token |
| ParserFacts.PrimaryParsesTokens | src/parser.rs:117-132 | a parenthesised tree or a number parses as a primary |
| ParserFacts.OperatorInParens | src/parser.rs:121-128 | `( l op r )` parses to `BinaryOp(op, l, r)` |
| ParserFacts.ExitRoundTrip | src/parser.rs:31-54 | `exit ( e ) ;` yields `e` itself, unwrapped, after exactly its tokens |
| ParserFacts.ExitShape | src/parser.rs:31-54 | `parse_exit_expr` succeeds only on `Ident("exit") LParen expr RParen Semicolon`, and its failures leave `pos` past the eaten tokens |
| ParserFacts.ExitFailureKeepsPosition | src/parser.rs:38-47 | a missing `)` fails with the four eaten tokens still consumed |
| ParserFacts.MulBindsTighter | src/parser.rs:62-114 | `a + b * c` parses to `Add(a, Mul(b, c))` |
| ParserFacts.MulBeforeAdd | src/parser.rs:62-114 | `a * b + c` parses to `Add(Mul(a, b), c)` |
| ParserFacts.TermChainFoldsLeft | src/parser.rs:66-84 | a chain `+/- n` of any length folds to the left |
| ParserFacts.FactorChainFoldsLeft | src/parser.rs:93-111 | a chain `*// n` of any length folds to the left |
| ParserFacts.SubtractionFoldsLeft | src/parser.rs:66-84 | `1 - 2 - 3` parses to `Sub(Sub(1, 2), 3)` |
| ParserFacts.DivisionFoldsLeft | src/parser.rs:93-111 | `8 / 4 / 2` parses to `Div(Div(8, 4), 2)` |
| ParserFacts.TrailingTokensLeft | src/parser.rs:82 | `1 2` yields `Number(1)` with `pos = 1` |
| ParserFacts.LexShow | src/lexer.rs:22-137 | the lexer turns the spaced, parenthesised text of a tree into exactly that tree's tokens |
| ParserFacts.LexThenParse | src/parser.rs:57-132 | lexing and then parsing the text of any tree with non-negative leaves gives back the tree |
| CodeGen.FindLabel | src/codegen.rs:568-570 | the label of the first entry holding the text, and none exactly when no entry holds it |
| CodeGen.AddLiteral | src/codegen.rs:615-623 | a text seen before changes nothing. A new one gets `msg<counter>` and its data line, and the counter advances |
| CodeGen.Collect | src/codegen.rs:612-638 | the walk only appends, and the counter advances exactly by the labels and data lines added |
| CodeGen.CollectAll | src/codegen.rs:62-65 | as for `Collect`, over the statement list |
| CodeGenFacts.CollectDedup | src/codegen.rs:612-638 | collecting a tree adds exactly the first occurrences of its unseen literals, in walk order |
| CodeGenFacts.CollectAllDedup | src/codegen.rs:62-65 | the same over a statement list |
| CodeGenFacts.DedupProps | src/codegen.rs:617-622 | the added texts are new, every literal is either seen or added, and no text is added twice |
| CodeGenFacts.FindLabelSeen | src/codegen.rs:617 | a text has a label exactly when it was seen |
| CodeGenFacts.LabelsOfDistinct | src/codegen.rs:618-619 | the labels `msg0, msg1, …` are pairwise distinct |
| CodeGenFacts.CollectProgram | src/codegen.rs:48-65 | each distinct literal of the program gets exactly one label `msg<k>`, numbered in first-occurrence order, and labels and texts are pairwise distinct |
| CodeGenFacts.IsStringExprLeaves | src/codegen.rs:641-658 | `is_string_expr` holds exactly when some operand of the `+` tree is a string literal or a name bound to a string |
| CodeGenFacts.ConcatCodeLeaves | src/codegen.rs:661-754 | concatenation emits one append block per operand of the `+` tree, left to right |
| CodeGenFacts.AddLeavesAreLeaves | src/codegen.rs:747-751 | the operands of a `+` tree are not themselves `+` nodes |
| CodeGenFacts.LeavesCodeResult | src/codegen.rs:661-754 | concatenation succeeds exactly when every operand can be appended, and otherwise fails with the first failing operand's error |
| CodeGenFacts.ConcatRejectsOperator | src/codegen.rs:752 | a non-`+` operator as an operand is fatal |
| CodeGenFacts.ExprCodeNode | src/codegen.rs:779-835 | a binary node lowers to right, `push rax`, left, `pop rbx`, then the operator |
| CodeGenFacts.ExprCodeLeaf | src/codegen.rs:759-778 | a leaf lowers to one `mov rax, n` |
| CodeGenFacts.ExprCodeBalanced | src/codegen.rs:757-840 | lowered code has exactly one `push rax` and one `pop rbx` per operator node |
| CodeGenFacts.OpCodeNoStack | src/codegen.rs:796-834 | operator code never touches the stack |
| CodeGenFacts.ParserExprNotString | src/codegen.rs:641-658 | no tree the parser builds is string-like |
| CodeGenFacts.ParserExprCompiles | src/codegen.rs:757-840 | every tree the parser builds lowers without a fault |
| CodeGenFacts.ConstRedeclaredFatal | src/codegen.rs:349-422 | redeclaring a constant is fatal |
| CodeGenFacts.ConstNonLiteralFatal | src/codegen.rs:420 | a value that is not a literal form is fatal |
| CodeGenFacts.ElementValuesOk | src/codegen.rs:397-407 | a `const` array's values exist exactly when every element is a scalar literal, and the failure is the literal-only panic |
| CodeGenFacts.ConstArrayRule | src/codegen.rs:390-410 | a new array constant is accepted exactly when all its elements are scalar literals |
| CodeGenFacts.ConstBinds | src/codegen.rs:349-422 | success adds only `constants[name]`. Other entries and the counter are unchanged, one comment line is added, and a data line is added only for a string |
| CodeGenFacts.StepExtends | src/codegen.rs:80-425 | a statement only extends the buffers and the table, and it takes a label only for a printed number or float |
| CodeGenFacts.LoopExtends | src/codegen.rs:80-425 | the statement loop only extends the buffers, and the counter grows by the numbered prints |
| CodeGenFacts.PrintNumberVariableTwice | src/codegen.rs:151-168 | each print of a number constant appends its own `var_<name>` data line, whatever is already there, so two prints define it twice |
| CodeGenFacts.LoopEnd | src/codegen.rs:80-425 | code that prints or declares never ends in `syscall` |
| CodeGenFacts.DefaultExitIff | src/codegen.rs:428-433 | the default exit sequence ends the text exactly when no top-level statement is an `exit` |
| CodeGenFacts.GeneratedLayout | src/codegen.rs:48-77 | the document is the data section as collected, the header, the text, `print_number`, then the helpers |
| CodeGenFacts.GeneratedFixedLayout | src/codegen.rs:540-552 | the corrected document holds the whole final data section in the same region order |
| Correctness.ExprCodeCorrect | src/codegen.rs:757-840 | with signed division, lowered code leaves the expression's 64-bit value in `rax` and the stack unchanged. It faults exactly on division by zero or overflow |
| Correctness.OpStep | src/codegen.rs:796-834 | each operator's instructions compute its meaning, with comparisons giving 0 or 1 |
| Correctness.ExitStmtCorrect | src/codegen.rs:314-348 | `exit` passes its code's value to `sys_exit`: a literal, a number constant, 1/0 for a boolean constant, or the 64-bit result of any other expression. It faults where that result is undefined |
| Correctness.DefaultExitCorrect | src/codegen.rs:428-433 | the default exit sequence exits with status 0 and writes nothing |
| Correctness.PrintFixedTextCorrect | src/codegen.rs:97-119 | printing a boolean or `null`, literal or constant, writes its `Display` text and a newline |
| Correctness.PrintNumberCorrect | src/codegen.rs:234-249 | printing a number writes its decimal text and a newline, once its data line is present |
| Correctness.PrintStringLiteralCorrect | src/codegen.rs:84-96 | printing a string literal writes its text followed by a NUL byte |
| Correctness.PrintArrayCorrect | src/codegen.rs:120-150 | printing an array of booleans and strings writes `Display` of the array, `[a, b]` with n−1 separators, and a newline |
| Generator.Emitter.constructor | src/codegen.rs:41-59 | the locals as set up: the fixed data lines, and everything else empty |
| Generator.Emitter.FindLabelOf | src/codegen.rs:86-88 | the search loop finds `FindLabel` |
| Generator.Emitter.CollectStringLiterals | src/codegen.rs:612-638 | the recursive walk leaves exactly the `Collect` state |
| Generator.Emitter.CollectLiterals | src/codegen.rs:62-65 | the loop over statements leaves exactly the `CollectAll` state |
| Generator.Emitter.GenerateExpressionCode | src/codegen.rs:757-840 | the buffer grows by exactly `ExprCode`, or the method stops with its panic |
| Generator.Emitter.GenerateStringConcat | src/codegen.rs:661-754 | the match over the operand's form grows the buffer by exactly `ConcatCode`, or stops with its panic |
| Generator.Emitter.AppendConcatVariable | src/codegen.rs:697-747 | a constant operand of a concatenation appends the code for its kind, or stops with the undefined-variable panic |
| Generator.Emitter.GeneratePrintExpr | src/codegen.rs:563-609 | the buffer grows by exactly `ElementCode`, or the method stops with its panic |
| Generator.Emitter.PrintElements | src/codegen.rs:130-142 | the element loop appends every element and the separators between them |
| Generator.Emitter.EmitArrayPrint | src/codegen.rs:120-150 | the array print appends `[`, the elements, then `]` and a newline |
| Generator.Emitter.EmitConcatPrint | src/codegen.rs:266-303 | a string `+` print sets up `str_buffer`, appends both operands, then writes it |
| Generator.Emitter.EmitLiteralPrint | src/codegen.rs:84-96 | a literal print writes the literal's collected label with its UTF-8 length plus one, or stops with the "String not found" panic |
| Generator.Emitter.EmitNumberPrint | src/codegen.rs:234-249 | a number print adds a `num<k>` data line with the decimal text, bumps the counter and writes that line |
| Generator.Emitter.EmitFloatPrint | src/codegen.rs:250-265 | a float print does the same under a `float<k>` label |
| Generator.Emitter.EmitVariablePrint | src/codegen.rs:151-233 | a variable print appends the code and data `PrintVariable` gives for the constant's kind, or stops with the undefined-variable panic |
| Generator.Emitter.EmitOperatorPrint | src/codegen.rs:266-311 | an operator print is a concatenation exactly when the operator is `+` and an operand is string-like, otherwise a numeric print |
| Generator.Emitter.EmitPrint | src/codegen.rs:82-313 | a `print` changes the sections and the counter exactly as `PrintStmt` says |
| Generator.Emitter.EmitNumericPrint | src/codegen.rs:266-311 | a numeric print appends the expression code and the `print_number` call |
| Generator.Emitter.EmitExit | src/codegen.rs:314-348 | an `exit` appends exactly `ExitStmt`, or stops with its panic |
| Generator.Emitter.EmitConst | src/codegen.rs:349-422 | a `const` leaves exactly `ConstStmt`'s state, or stops with its panic |
| Generator.Emitter.EmitStatement | src/codegen.rs:81-424 | one statement leaves exactly `Step`'s state, and other forms change nothing |
| Generator.Emitter.EmitStatements | src/codegen.rs:80-425 | the statement loop leaves exactly `StatementLoop`'s state |
| Generator.AnyExit | src/codegen.rs:428 | the `any` scan is `HasExit` |
| Generator.ArrayValues | src/codegen.rs:397-407 | the value loop of a `const` array is `ElementValues` |
| Generator.AssembleDocument | src/codegen.rs:68-77 | the document parts are assembled in `Assemble`'s order, including the re-insert branch |
| Generator.GenerateNasm | src/codegen.rs:40-560 | the whole function returns exactly `Generated(stmts)`: the document, or the first panic |
| Correctness.PrintFiveAsWritten | src/codegen.rs:234-249 | as written, the data line of `print 5` is missing from the output, and the program's write finds no `num0` |
| Correctness.PrintFiveFixed | src/codegen.rs:540-552 | with the final data section emitted, `print 5` writes `5` and a newline, then exits 0 |
| Correctness.UnsignedDivisionWrong | src/codegen.rs:800-803 | as written, `(0 - 6) / 2` leaves `2^63 - 3` in `rax` instead of `-3` |
| Correctness.SignedDivisionRight | src/codegen.rs:800-803 | with `cqo`/`idiv`, `(0 - 6) / 2` leaves `-3` |

## Left out

- `src/main.rs` is not part of this model: argument parsing, file reading, the assembler and
  linker processes, and `chmod` are operating-system plumbing.
- The `fs::write` at `src/codegen.rs:555-557` is file output. The model returns the document.
- `f64::to_string`: a `Float` carries its rendered text as an opaque string. Floating-point
  arithmetic and formatting are not modelled.
- The run-time behaviour of `print_number`, `append_string` and `append_number` is left out.
  These are the embedded routines at `src/codegen.rs:436-536`. They are emitted as fixed text,
  and the machine treats a call to them as stuck. Numeric `print` and concatenated strings are
  therefore proved only at the level of the emitted instructions.
- Unicode classes: `is_alphabetic` and `is_alphanumeric` are ASCII letters and digits.
  `is_whitespace` is the Unicode White_Space list.
- Lexer.ReadNumber: a number above `i32::MAX` is the debug-build overflow panic. The release
  build's wrap-around is not modelled.
- Comment text on emitted lines is kept only where it is a whole line. Trailing comments after
  an instruction are dropped. Comments do not affect the machine.
- Correctness.PrintStringLiteralCorrect, Correctness.PrintArrayCorrect: they assume the string
  is ASCII. The machine counts characters, while the emitted length is `str::len()` in bytes.
- Correctness.ExprCodeCorrect: with the as-written unsigned `div`, it covers only divisions of
  non-negative operands, which is where `div` agrees with signed division.
- CodeGen.AssembleFixed: the corrected document keeps every data line added in the loop, and
  that can define a symbol more than once. Every print of a number, float or array constant
  adds its own `var_<name>` line (`src/codegen.rs:163`, `:177`, `:213`), so `const x = 5;
  print x; print x;` defines `var_x` twice (`CodeGenFacts.PrintNumberVariableTwice`). NASM
  rejects a redefined label, while `Machine.Lookup` reads the first definition, so the machine
  does not see that error. The corrected document is therefore the fix for undefined labels
  only. It does not keep one definition per symbol.
- Correctness.ExitStmtCorrect: the exit outcome holds the whole 64-bit value passed to
  `sys_exit`. A Linux process reports only the low byte of it as its status, so `exit(256)`
  exits with 0. That truncation is not modelled.
- `let`, assignment, `if`, comments, escape sequences and single-quoted strings do not occur
  in these files.

## Findings

| source | as written | input that shows it | evidently intended | confidence | as-written member | corrected member |
|---|---|---|---|---|---|---|
| src/codegen.rs:68-72, 163, 244, 260, 376, 540-552 | the data section goes into the document right after literal collection, and the re-insert branch never fires because the document already contains `section .data`. Data lines added while lowering statements (`num<k>`, `float<k>`, `var_<name>`) never reach the output | `print 5`: the text writes from `num0`, which is never defined | the final data section, with every line added during lowering, goes into the document. The corrected member does this, but keeps a repeated `var_<name>` line (see CodeGen.AssembleFixed under Left out) | not executed | Correctness.PrintFiveAsWritten | Correctness.PrintFiveFixed |
| src/codegen.rs:800-803 | division is lowered as `xor rdx, rdx` then unsigned `div rbx`, on signed 64-bit operands | the expression `(0 - 6) / 2` computes 2^63 − 3, not −3 | `cqo` then `idiv rbx`: signed division rounding toward zero | not executed | Correctness.UnsignedDivisionWrong | Correctness.SignedDivisionRight |
