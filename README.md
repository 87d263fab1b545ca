# AOT script engine: a verified model of its core

AOT-script is a small REPL for a tiny language. The language has non-negative
integer literals, variables, `+ - * /` with the usual two precedence levels,
parentheses, `print e` and `x = e`. Each line the user types is lexed and parsed
into a block of statements, and then one of two things happens:

- **interpret mode:** a tree-walking evaluator runs the block against a
  persistent environment;
- **compile mode:** the block is translated to C# lines, which are appended to a
  session-wide buffer. The whole buffer is then wrapped in a class and handed to
  a compile-and-run collaborator.

This project models all of the core in Dafny:

- the syntax tree (`Ast`);
- the lexer (`Lexing`): a pure token-sequence specification plus the `Lexer`
  class, whose cursor methods are proved against it;
- the recursive-descent parser: a pure grammar (`ParserSpec`) plus the `Parser`
  class (`Parsing`), whose cursor methods are proved against it;
- the evaluator (`Evaluation`): pure expression evaluation plus the `Evaluator`
  class, which holds the environment;
- the code generator (`CodeGen`);
- the session loop of `Program.cs` (`Session`): a pure state machine over
  (mode, environment, buffer, output) plus the `Session` class, whose `Step`
  and `Loop` are proved against it.

C#'s 32-bit `int` is modelled in `CSharpInt`:

- unchecked `+ - *` wrap modulo 2^32;
- `/` truncates toward zero and throws on a zero divisor and on int.MinValue / -1;
- `ToString` writes decimal text and `int.Parse` reads it back.

Every exception of the core is a `Failure` value of `Errors.Error`. Across the
modules the following are proved:

- **Parser:** statements in order with no separator, each read back from its
  tokens; precedence and left associativity; `ParseTermTail` is a no-op;
  every tree the parser builds is well formed.
- **Lexer:** whitespace is the only thing dropped.
- **Generated code:** lexing and parsing it gives back the tree; the line
  structure is what `Program.cs` relies on.
- **Evaluator:** on division-free expressions it equals unbounded arithmetic
  followed by wrapping.
- **Session:** the buffer only grows, and by exactly the new statement lines;
  replay is cumulative; the `:mode` and exit handling.

`RoundTrip` holds the round-trip proof. `ParserProps` holds the grammar
properties. `Scenarios` works through concrete submissions.

## Model

| member | source | states |
|---|---|---|
| CSharpInt.Wrap | AOTInterpreter/Evaluator.cs:46-48 | the result is the unique `int` congruent to the exact value modulo 2^32, and an in-range value is kept |
| CSharpInt.WrapAdd | AOTInterpreter/Evaluator.cs:46 | wrapping after each `+` equals wrapping the exact sum once |
| CSharpInt.WrapSub | AOTInterpreter/Evaluator.cs:47 | wrapping after each `-` equals wrapping the exact difference once |
| CSharpInt.WrapMul | AOTInterpreter/Evaluator.cs:48 | wrapping after each `*` equals wrapping the exact product once |
| CSharpInt.TruncDiv | AOTInterpreter/Evaluator.cs:49 | the quotient leaves a remainder that is zero or has the dividend's sign, smaller in magnitude than the divisor (truncation toward zero) |
| CSharpInt.Div | AOTInterpreter/Evaluator.cs:49 | C# `/` fails exactly for a zero divisor or int.MinValue / -1, and otherwise returns the truncated quotient |
| CSharpInt.TruncDivInRange | AOTInterpreter/Evaluator.cs:49 | every quotient other than int.MinValue / -1 fits in `int` |
| CSharpInt.Digits | AOTInterpreter/CodeGenerator.cs:37 | the decimal digits of a natural number are non-empty, all digits, and have no leading zero |
| CSharpInt.DigitsRoundTrip | AOTInterpreter/CodeGenerator.cs:37 | reading back the digits of `n` gives `n` |
| CSharpInt.DecimalText | AOTInterpreter/CodeGenerator.cs:37 | `int.ToString` is non-empty, and it is all digits exactly for a non-negative value |
| CSharpInt.ParseInt | AOTInterpreter/Parser.cs:100 | `int.Parse` of number text succeeds exactly for a digit run of value at most int.MaxValue, giving that value; a longer digit run is an overflow |
| CSharpInt.ParseDecimalText | AOTInterpreter/Parser.cs:100 | `int.Parse` reads back what `ToString` writes, for every non-negative `int` |
| Errors.PrependPrepend | AOTInterpreter/Program.cs:35-39 | collecting tokens into a list in two stages is collecting them in one |
| Lexing.Span | AOTInterpreter/Lexer.cs:26-33 | the length of a character-class run is at most the text's length |
| Lexing.SpanMaximal | AOTInterpreter/Lexer.cs:58-61 | a run is maximal: every character in it is in the class and the next one is not |
| Lexing.SpanPrefix | AOTInterpreter/Lexer.cs:58-61 | a class run followed by a character outside the class spans exactly that run |
| Lexing.Next | AOTInterpreter/Lexer.cs:24-53 | one `NextToken`: whitespace is skipped and the token's text follows it directly; EOF (empty text) exactly when only whitespace remains; failure exactly at a character no token starts with, naming that character |
| Lexing.NextTokenText | AOTInterpreter/Lexer.cs:29-33 | a non-EOF token's text is non-empty and has no whitespace |
| Lexing.NextWord | AOTInterpreter/Lexer.cs:35-64 | a letter run is read whole; it is `Print` exactly when it spells `print`, otherwise an identifier with that text |
| Lexing.NextNumber | AOTInterpreter/Lexer.cs:36-71 | a digit run is read whole as one unsigned number token |
| Lexing.NextSingle | AOTInterpreter/Lexer.cs:38-47 | each of `+ - * / = ( )` is a one-character token of its own kind |
| Lexing.Tokens | AOTInterpreter/Program.cs:35-39 | a successful token list is non-empty and ends with the EOF token |
| Lexing.TokensShape | AOTInterpreter/Program.cs:35-39 | EOF comes only last, identifiers are letter runs other than `print`, and numbers are digit runs |
| Lexing.NextWellFormed | AOTInterpreter/Lexer.cs:24-71 | every single token `NextToken` returns is well formed |
| Lexing.NonSpaceConcat | AOTInterpreter/Lexer.cs:29-33 | removing whitespace distributes over concatenation |
| Lexing.NextNonSpace | AOTInterpreter/Lexer.cs:24-53 | one token accounts for exactly the non-whitespace characters it consumed |
| Lexing.TokensText | AOTInterpreter/Lexer.cs:24-71 | the token texts, concatenated, spell the input with its whitespace removed |
| Lexing.TokensStep | AOTInterpreter/Program.cs:35-39 | the token loop unfolded once: the first token's failure, the EOF alone, or the first token followed by the rest's tokens |
| Lexing.Lexer.constructor | AOTInterpreter/Lexer.cs:20-22 | a new lexer reads the given text from position 0 |
| Lexing.Lexer.NextToken | AOTInterpreter/Lexer.cs:24-53 | the token and cursor advance are those of `Next` on the unread text; the cursor never moves back; a call at the end of the text returns EOF and leaves the cursor there; on a bad character the cursor has passed it |
| Lexing.Lexer.ReadIdentifier | AOTInterpreter/Lexer.cs:55-64 | the cursor moves past the maximal letter run, and the token is that run as a word |
| Lexing.Lexer.ReadNumber | AOTInterpreter/Lexer.cs:66-71 | the cursor moves past the maximal digit run, and the token is a number with that text |
| Lexing.TokenizeEnd | AOTInterpreter/Program.cs:35-39 | the token loop stops on a lexing failure or after keeping the EOF token |
| Lexing.TokenizeStep | AOTInterpreter/Program.cs:35-39 | a non-EOF token strictly advances the cursor and is kept before the remaining tokens, which is why the loop terminates |
| Lexing.Tokenize | AOTInterpreter/Program.cs:32-39 | the `do … while` loop over `NextToken` returns exactly the token sequence `Tokens` of the input, or its failure |
| ParserSpec.Eat | AOTInterpreter/Parser.cs:9-16 | succeeds exactly when the current token has the wanted kind (and is in range), returning it and the next position; a mismatch reports the expected and the actual kind |
| ParserSpec.Expression | AOTInterpreter/Parser.cs:53 | a successful expression consumes at least one token, and from lexer tokens it is well formed |
| ParserSpec.Term | AOTInterpreter/Parser.cs:55-67 | the same for the `+`/`-` level |
| ParserSpec.TermTail | AOTInterpreter/Parser.cs:69-80 | the `+`/`-` loop stops exactly at a token that is neither `+` nor `-` and keeps well-formedness |
| ParserSpec.Factor | AOTInterpreter/Parser.cs:82-94 | a successful factor consumes at least one token and is well formed from lexer tokens |
| ParserSpec.FactorTail | AOTInterpreter/Parser.cs:85-91 | the `*`/`/` loop stops exactly at a token that is neither `*` nor `/` and keeps well-formedness |
| ParserSpec.Primary | AOTInterpreter/Parser.cs:96-119 | a successful primary consumes at least one token; numbers are in `[0, int.MaxValue]` and operators arithmetic |
| ParserSpec.Statement | AOTInterpreter/Parser.cs:26-45 | a successful statement consumes at least one token and is a print or an assignment of a well-formed expression |
| ParserSpec.StatementCases | AOTInterpreter/Parser.cs:26-45 | `print e` gives `PrintStmt` of the expression after the keyword and `x = e` gives `AssignStmt` of the identifier's text and the expression after `=`, each failing exactly as that expression fails; any other start fails with an unexpected current token |
| ParserSpec.Statements | AOTInterpreter/Parser.cs:20-22 | the loop reads no statement exactly when it starts at EOF; otherwise its first statement is `ParseStatement`'s, and a failing statement's error is the loop's; from lexer tokens every statement is well formed |
| ParserSpec.Parse | AOTInterpreter/Parser.cs:18-24 | the result is a block, and from lexer tokens it holds only well-formed prints and assignments |
| Parsing.Parser.constructor | AOTInterpreter/Parser.cs:3-5 | a new parser holds the token list with its cursor at 0 |
| Parsing.Parser.Eat | AOTInterpreter/Parser.cs:9-16 | agrees with `Eat`: the cursor advances only on a matching kind and stays on a mismatch |
| Parsing.Parser.Parse | AOTInterpreter/Parser.cs:18-24 | the statement loop returns exactly the specification's `Parse` of the tokens |
| Parsing.Parser.ParseStatement | AOTInterpreter/Parser.cs:26-45 | result and cursor agree with `Statement` |
| Parsing.Parser.ParseExpression | AOTInterpreter/Parser.cs:53 | result and cursor agree with `Expression` |
| Parsing.Parser.ParseTerm | AOTInterpreter/Parser.cs:55-67 | the `while` loop's result and cursor agree with `Term` |
| Parsing.Parser.ParseTermTail | AOTInterpreter/Parser.cs:69-80 | the `while` loop's result and cursor agree with `TermTail` |
| Parsing.Parser.ParseFactor | AOTInterpreter/Parser.cs:82-94 | the `while` loop's result and cursor agree with `Factor` |
| Parsing.Parser.ParsePrimary | AOTInterpreter/Parser.cs:96-119 | result and cursor agree with `Primary` |
| ParserProps.CurrentPastEnd | AOTInterpreter/Parser.cs:7-51 | `Current` never reads out of range: at or past the last token it reads the final EOF, and `Peek(1)` there is null |
| ParserProps.TermTailIsNoOp | AOTInterpreter/Parser.cs:53-80 | `ParseTermTail` applied to `ParseTerm`'s result returns it unchanged, so `ParseExpression` is `ParseTerm` |
| ParserProps.ExpressionFailsAtPrimary | AOTInterpreter/Parser.cs:53-84 | an expression whose first primary fails fails with that primary's error |
| ParserProps.AtomTokenReads | AOTInterpreter/Parser.cs:98-108 | the token a well-formed number or variable is written as reads back as it |
| ParserProps.PrimaryAtom | AOTInterpreter/Parser.cs:98-108 | a number or identifier token is a one-token primary |
| ParserProps.AdditiveChainStep | AOTInterpreter/Parser.cs:69-80 | one round of the `+`/`-` loop consumes the chain's first operator and atom and leaves a chain behind |
| ParserProps.AdditiveChain | AOTInterpreter/Parser.cs:69-80 | the `+`/`-` loop over `op0 a0 op1 a1 …` builds the left-nested fold |
| ParserProps.MultiplicativeChainStep | AOTInterpreter/Parser.cs:85-91 | one round of the `*`/`/` loop consumes the chain's first operator and atom and leaves a chain behind |
| ParserProps.MultiplicativeChain | AOTInterpreter/Parser.cs:85-91 | the `*`/`/` loop over `op0 a0 op1 a1 …` builds the left-nested fold |
| ParserProps.LeftAssociative | AOTInterpreter/Parser.cs:58-90 | an atom followed by a chain of one precedence level parses as the left-nested fold: `8-3-2` is `(8-3)-2` |
| ParserProps.LeftAssociativeSum | AOTInterpreter/Parser.cs:58-63 | the same for a chain of `+`/`-` |
| ParserProps.LeftAssociativeProduct | AOTInterpreter/Parser.cs:85-90 | the same for a chain of `*`/`/` |
| ParserProps.MultiplicativeBindsTighterOnRight | AOTInterpreter/Parser.cs:55-94 | `a + b * c` parses as `a + (b * c)`, for any additive and multiplicative operator |
| ParserProps.MultiplicativeBindsTighterOnLeft | AOTInterpreter/Parser.cs:55-94 | `a * b + c` parses as `(a * b) + c` |
| ParserProps.TermTailStep | AOTInterpreter/Parser.cs:71-77 | one round of the `+`/`-` loop attaches the next factor on the right of the accumulated tree |
| ParserProps.FactorTailStep | AOTInterpreter/Parser.cs:85-91 | one round of the `*`/`/` loop attaches the next primary on the right of the accumulated tree |
| ParserProps.FactorTailEnd | AOTInterpreter/Parser.cs:85 | the `*`/`/` loop stops at any other token without consuming it |
| ParserProps.TermTailEnd | AOTInterpreter/Parser.cs:71 | the `+`/`-` loop stops at any other token without consuming it |
| ParserProps.SumStep | AOTInterpreter/Parser.cs:71-79 | a single `+`/`-` followed by a non-additive token builds one binary node |
| ParserProps.FactorOfPrimary | AOTInterpreter/Parser.cs:82-94 | a primary followed by neither `*` nor `/` is the whole factor |
| ParserProps.ExpressionOfFactor | AOTInterpreter/Parser.cs:53-67 | a factor (or factor and `+`/`-` tail) followed by no operator is the whole expression |
| Evaluation.Apply | AOTInterpreter/Evaluator.cs:44-50 | the operator switch fails exactly for a non-arithmetic operator (an unknown-operator error) or a failing division; `/` is `Div`, the quotient truncated toward zero |
| Evaluation.Evaluate | AOTInterpreter/Evaluator.cs:30-38 | success reads only bound variables; an undefined-variable failure names an unbound variable of the expression; no other error kinds arise |
| Evaluation.EvaluateBinary | AOTInterpreter/Evaluator.cs:40-52 | the same guarantees for a binary node |
| Evaluation.LeftBeforeRight | AOTInterpreter/Evaluator.cs:42-43 | the left operand's error wins over the right's; the right's error is reported only when the left succeeds |
| Evaluation.EvaluateReadsOnlyVars | AOTInterpreter/Evaluator.cs:30-38 | two environments that agree on an expression's variables give it the same result |
| Evaluation.WrapsExact | AOTInterpreter/Evaluator.cs:44-49 | without division, evaluation is the exact integer value wrapped once to 32 bits |
| Evaluation.WrapsBinary | AOTInterpreter/Evaluator.cs:40-52 | the binary step of that: wrapped operands give the wrapped exact result |
| Evaluation.ApplyWraps | AOTInterpreter/Evaluator.cs:46-48 | `+ - *` applied to wrapped operands is the wrapped exact result |
| Evaluation.Exec | AOTInterpreter/Evaluator.cs:13-28 | a statement fails exactly for a nested block or a failing expression; print writes exactly the value of its expression and keeps the environment; assignment binds its name to the value, keeps all other bindings and writes nothing |
| Evaluation.Run | AOTInterpreter/Evaluator.cs:7-11 | bindings are only added or overwritten, and only by assignments: no binding is removed, every new name is one the statements assign, and a name they do not assign keeps its value; at most one value per statement is written |
| Evaluation.RunAppend | AOTInterpreter/Evaluator.cs:5-11 | running `a + b` is running `a` and then, unless it failed, `b` from where `a` left the environment: no rollback, and two `Execute` calls are one run |
| Evaluation.RunStep | AOTInterpreter/Evaluator.cs:9-10 | a failing first statement stops the run with nothing written; otherwise its output precedes the rest's |
| Evaluation.Evaluator.constructor | AOTInterpreter/Evaluator.cs:5 | a new evaluator has an empty environment |
| Evaluation.Evaluator.ExecuteStatement | AOTInterpreter/Evaluator.cs:13-28 | result and new environment are those of `Exec`; a failure leaves the environment untouched |
| Evaluation.Evaluator.Execute | AOTInterpreter/Evaluator.cs:7-11 | the `foreach` loop's final environment, written values and failure are exactly `Run` from the old environment |
| CodeGen.OpToString | AOTInterpreter/CodeGenerator.cs:43-50 | succeeds exactly for the four arithmetic kinds, with one non-letter, non-digit character; any other kind is an unknown operator |
| CodeGen.OpToStringInjective | AOTInterpreter/CodeGenerator.cs:43-50 | distinct operators are spelled differently |
| CodeGen.GenerateExpression | AOTInterpreter/CodeGenerator.cs:35-41 | succeeds exactly when every operator is arithmetic; a binary node's text is parenthesised; parser-produced trees translate without a newline |
| CodeGen.GenerateLeftToRight | AOTInterpreter/CodeGenerator.cs:39 | the interpolation translates the left operand, then the operator, then the right operand: the first failure in that order is the one reported |
| CodeGen.GenerateStatement | AOTInterpreter/CodeGenerator.cs:28-33 | succeeds exactly for a print or assignment with known operators; a nested block is an unknown statement; parser-produced statements give one newline-free line |
| CodeGen.StatementLines | AOTInterpreter/CodeGenerator.cs:18-21 | one line per statement |
| CodeGen.StatementLinesSpec | AOTInterpreter/CodeGenerator.cs:18-21 | the lines exist exactly when each statement translates, line `i` is statement `i`'s, and a failure is the first untranslatable statement's error |
| CodeGen.StatementLinesNoNewline | AOTInterpreter/CodeGenerator.cs:18-21 | parser-produced statements translate to lines without a newline |
| CodeGen.StatementLinesStep | AOTInterpreter/CodeGenerator.cs:18-21 | the statement loop unfolded once |
| CodeGen.Generate | AOTInterpreter/CodeGenerator.cs:11-26 | the `StringBuilder` loop returns exactly the prologue, one line per statement and the epilogue, each newline-terminated |
| CodeGen.LinesSnoc | AOTInterpreter/CodeGenerator.cs:20 | appending one more newline-terminated line to the text |
| CodeGen.GenerateSplits | AOTInterpreter/CodeGenerator.cs:14-24 | for parser-produced statements, splitting the text on newlines gives 3 + n + 3 pieces: the prologue, exactly the statement lines, the epilogue and a final empty piece |
| CodeGen.PrologueEpilogueNoNewline | AOTInterpreter/CodeGenerator.cs:14-24 | the fixed prologue and epilogue lines have no newline |
| TextLines.AllNoNewlineConcat | AOTInterpreter/Program.cs:52 | newline-free line lists stay newline-free when concatenated |
| TextLines.Lines | AOTInterpreter/CodeGenerator.cs:13-25 | newline-terminated lines are at least one character per line |
| TextLines.Split | AOTInterpreter/Program.cs:52 | `Split('\n')` gives at least one piece, none containing a newline |
| TextLines.SplitSingle | AOTInterpreter/Program.cs:52 | newline-free text is one piece |
| TextLines.SplitAt | AOTInterpreter/Program.cs:52 | splitting cuts at the first newline |
| TextLines.SplitLines | AOTInterpreter/Program.cs:52 | splitting newline-terminated lines gives them back plus one empty piece |
| TextLines.SplitJoin | AOTInterpreter/Program.cs:58 | splitting a newline-join of newline-free lines gives them back |
| TextLines.SplitJoinThen | AOTInterpreter/Program.cs:54-59 | the same when a newline and more text follow |
| TextLines.LinesAppend | AOTInterpreter/CodeGenerator.cs:13-25 | the text of two line lists is the texts concatenated |
| RoundTrip.TokensOf | AOTInterpreter/CodeGenerator.cs:35-41 | the tokens of a generated expression number `Size(e)` |
| RoundTrip.OpLexes | AOTInterpreter/CodeGenerator.cs:43-50 | the lexer reads each operator's spelling back as that operator |
| RoundTrip.TokensSpace | AOTInterpreter/Lexer.cs:29-33 | a leading space does not change the tokens |
| RoundTrip.LexDigits | AOTInterpreter/Lexer.cs:36-71 | a digit run followed by a non-digit is one number token |
| RoundTrip.LexLetters | AOTInterpreter/Lexer.cs:35-64 | a letter run followed by a non-letter is one word token |
| RoundTrip.LexSingle | AOTInterpreter/Lexer.cs:38-47 | a one-character token character is its own token |
| RoundTrip.LexGenerated | AOTInterpreter/CodeGenerator.cs:35-41 | the generated text of a parser-produced expression, followed by a non-word character, lexes to its tokens and then the rest's |
| RoundTrip.OccursOfTokens | AOTInterpreter/CodeGenerator.cs:39 | wherever an expression's tokens sit, they have the fully parenthesised layout of the tree |
| RoundTrip.PrimaryOf | AOTInterpreter/Parser.cs:96-119 | a fully parenthesised occurrence of `e` parses as one primary giving `e` |
| RoundTrip.ParenthesisedBinary | AOTInterpreter/Parser.cs:53-116 | inside parentheses `l op r` parses as the single node, whatever the operator's level |
| RoundTrip.PrimaryParen | AOTInterpreter/Parser.cs:110-116 | parentheses return the inner expression with no extra node |
| RoundTrip.ExpressionOf | AOTInterpreter/Parser.cs:53 | an occurrence of `e` followed by no operator parses as `e` |
| RoundTrip.ExpressionRoundTrip | AOTInterpreter/CodeGenerator.cs:35-41 | for every parser-produced tree, lexing its generated text gives its tokens and EOF, and parsing those gives the tree back |
| RoundTrip.StmtTokens | AOTInterpreter/Parser.cs:26-45 | the tokens of a top-level statement start with `print` or an identifier |
| RoundTrip.AllWellFormedEach | AOTInterpreter/Parser.cs:18-24 | the statement list is well formed exactly when each of its statements is |
| RoundTrip.StatementOf | AOTInterpreter/Parser.cs:26-45 | a statement laid out at a position (`print` or its name and `=`, then its expression's tokens), followed by a token that is no operator, parses as exactly that statement and stops after its tokens |
| RoundTrip.StatementsStep | AOTInterpreter/Parser.cs:21-22 | one round of the statement loop: a statement, then the statements after it |
| RoundTrip.StatementsOf | AOTInterpreter/Parser.cs:20-22 | where statements are laid out one after the other up to EOF, the statement loop reads back exactly those statements, in order |
| RoundTrip.ParseRoundTrip | AOTInterpreter/Parser.cs:18-24 | for every list of parser-producible statements, their tokens one after the other with no separator, then EOF, parse to a block of exactly those statements in order |
| Session.TrailingSpace | AOTInterpreter/Program.cs:14 | the counted suffix is whitespace and the character before it is not |
| Session.Trim | AOTInterpreter/Program.cs:14 | the trimmed text is empty or starts and ends with non-whitespace |
| Session.TrimPadded | AOTInterpreter/Program.cs:14 | trimming removes exactly the whitespace padding around a word |
| Session.ExitPadded | AOTInterpreter/Program.cs:13-17 | `exit` in any case, with any whitespace around it, ends the session |
| Session.WordsFrom | AOTInterpreter/Program.cs:21 | the words are non-empty and contain no space |
| Session.WordsSeparated | AOTInterpreter/Program.cs:21 | the words of `a + " " + b` are those of `a` followed by those of `b` |
| Session.WordsOfWord | AOTInterpreter/Program.cs:21 | space-free non-empty text is a single word |
| Session.FrontEnd | AOTInterpreter/Program.cs:32-42 | lexing then parsing a line gives a block of well-formed prints and assignments |
| Session.Values | AOTInterpreter/Evaluator.cs:17-18 | one output line per printed value: line `i` shows value `i` |
| Session.ValuesAppend | AOTInterpreter/Evaluator.cs:17-18 | the lines of two runs of prints are the lines of each, one after the other |
| Session.ProgramLines | AOTInterpreter/Program.cs:61 | one output line per line the compiled program writes: line `i` is its line `i` |
| Session.ProgramLinesAppend | AOTInterpreter/Program.cs:61 | the output lines of two pieces of program output are those of each, one after the other |
| Session.Skip | AOTInterpreter/Program.cs:52 | LINQ `Skip(n)`: `n` fewer elements, or none when there are fewer than `n`; element `i` is element `n + i` of the input |
| Session.SkipLast | AOTInterpreter/Program.cs:52 | LINQ `SkipLast(n)`: `n` fewer elements, or none when there are fewer than `n`; element `i` is element `i` of the input |
| Session.NewLines | AOTInterpreter/Program.cs:52 | the lines taken from the generated text contain no newline |
| Session.SkipBothEnds | AOTInterpreter/Program.cs:52 | `Skip(3).SkipLast(3)` of at least six pieces is the middle |
| Session.Submit | AOTInterpreter/Program.cs:19-67 | one non-exit line: the buffer and the output only grow, and the buffer stays newline-free |
| Session.Steps | AOTInterpreter/Program.cs:10-68 | across a whole session the buffer and the output only grow |
| Session.ModeCommandNotLexed | AOTInterpreter/Program.cs:19-28 | a `:mode` line is never lexed: environment and buffer stay; with two or more words the mode becomes interpret exactly when the second word is `interpret` in any case; with one word nothing changes |
| Session.ModeSwitch | AOTInterpreter/Program.cs:19-28 | `:mode w` sets interpret mode exactly when `w` is `interpret` in any case, announces it, and changes nothing else |
| Session.ModeAlone | AOTInterpreter/Program.cs:22 | `:mode` alone changes nothing |
| Session.FrontEndError | AOTInterpreter/Program.cs:30-67 | a lexing or parsing error writes one error line and leaves mode, environment and buffer unchanged |
| Session.InterpretStep | AOTInterpreter/Program.cs:45-48 | interpret mode leaves the buffer alone; the environment is what the block's run leaves, even after a failure; its values, then its error, are written |
| Session.CompileStep | AOTInterpreter/Program.cs:49-62 | compile mode leaves the environment alone; the buffer becomes the old buffer followed by exactly the block's statement lines; the collaborator runs the whole new buffer, wrapped |
| Session.BufferIndependentOfRun | AOTInterpreter/Program.cs:52-61 | the lines are in the buffer before the collaborator runs, so what it does (including failing) cannot change the buffer |
| Session.FullCodeLines | AOTInterpreter/Program.cs:54-59 | the program handed over is, line by line, the wrapper head, every buffered line and the wrapper tail; with an empty buffer the joined code is "", so one blank line sits between head and tail |
| Session.EmptySubmissionReplays | AOTInterpreter/Program.cs:51-61 | an empty line in compile mode appends nothing and runs the whole buffer again |
| Session.ExitEndsSession | AOTInterpreter/Program.cs:13-17 | nothing after an exit line is read |
| Session.Session.constructor | AOTInterpreter/Program.cs:5-8 | the session starts in interpret mode, with a fresh evaluator, an empty buffer and nothing written |
| Session.Session.Step | AOTInterpreter/Program.cs:13-67 | one loop iteration quits exactly on an exit input, changing nothing; otherwise the new state is `Submit` of the old one |
| Session.Session.Loop | AOTInterpreter/Program.cs:10-68 | the `while` loop's final state is `Steps` over the inputs |
| Scenarios.TwoStatementsWithoutSeparator | AOTInterpreter/Parser.cs:18-24 | `x=1 print x` parses to the assignment and then the print |
| Scenarios.AssignmentWithoutName | AOTInterpreter/Parser.cs:26-45 | `=5` fails with an unexpected `=` |
| Scenarios.BareName | AOTInterpreter/Parser.cs:35-44 | a bare `x` fails with an unexpected identifier |
| Scenarios.BarePrint | AOTInterpreter/Parser.cs:28-118 | a bare `print` fails with an unexpected EOF |
| Scenarios.MissingClosingParenthesis | AOTInterpreter/Parser.cs:110-115 | `print (1` fails expecting `)` and finding EOF |
| Scenarios.NegativeQuotientTruncates | AOTInterpreter/Evaluator.cs:49 | `(0 - 7) / 2` is -3 |
| Scenarios.AdditionWraps | AOTInterpreter/Evaluator.cs:46 | int.MaxValue + 1 is int.MinValue |
| Scenarios.OperatorBeforeRightOperand | AOTInterpreter/CodeGenerator.cs:39 | in `(1 = (2 ( 3))` the node's own unknown operator `=` is reported, not the one inside its right operand |
| Scenarios.DivisionByZeroStopsTheRun | AOTInterpreter/Evaluator.cs:7-49 | `x = 1; print x; print x / 0; print 2` keeps the binding and the first value, fails on the division and never runs the last statement |

## Left out

- `CodeGenerator.CompileAndRun` (Roslyn compilation, assembly loading and reflection) is not part of this model. It is the parameter `run: string -> seq<string>` of the session functions: given the program text, it yields the lines it writes, whether diagnostics or the program's own output. An exception escaping it is not modelled separately.
- Console I/O is left out: the banner, the `> ` prompt and the wording of the messages. Each input line is an `Option<string>`, where `None` is end of input. Everything written is a sequence of `Session.Line` values: a value, an error, a mode message or a program line.
- Error messages keep their kind and the datum they name (character, token kinds, variable name), not their wording.
- Chars.IsWhiteSpace, Chars.IsLetter, Chars.IsDigit: ASCII classes only, not Unicode's `char.IsWhiteSpace/IsLetter/IsDigit`. A character is a Unicode code point, not a UTF-16 unit: for a character outside the Basic Multilingual Plane the unexpected-character error names the whole character, where the C# lexer names its high surrogate.
- Session.IsExit: `CurrentCultureIgnoreCase` is modelled as ASCII case folding, the same as `OrdinalIgnoreCase` for `:mode`.
- CSharpInt.ParseInt: models `int.Parse` only on what the lexer can hand it, a run of ASCII digits (anything else is a format error). Leading signs, surrounding whitespace and culture settings are not modelled.
- Parsing.Parser.constructor: requires a non-empty token list. On an empty list `Current` would index out of range. The session always passes at least the EOF token.
- ParserProps.MultiplicativeBindsTighterOnRight, ParserProps.MultiplicativeBindsTighterOnLeft: precedence is stated for `a op b op c` with atoms (numbers and identifiers) as operands, not for a sum whose operands are arbitrary product chains.
- ParserProps.LeftAssociative: stated for chains whose operands are atoms; parenthesised operands are covered by `RoundTrip.ExpressionRoundTrip` instead.
- Newlines are `"\n"`; the platform newline of `AppendLine` is not modelled.
- Facts of the code that the model keeps:
  - there is no string-literal token and no line/column tracking;
  - there is no unary minus, so `print -7/2` is a parse error (the truncation is shown by `(0 - 7) / 2`);
  - int.MinValue / -1 throws (an `OverflowException` on .NET), modelled as `DivisionOverflow`;
  - lines stay in the buffer even when running them fails.
- Scenarios.TwoStatementsWithoutSeparator, Scenarios.AssignmentWithoutName, Scenarios.BareName, Scenarios.BarePrint, Scenarios.MissingClosingParenthesis: stated on the token lists the lexer produces for those lines, not on the text. The lexing of text is covered in general by `Lexing.TokensText`, `RoundTrip.LexDigits`, `RoundTrip.LexLetters` and `RoundTrip.LexSingle`.
