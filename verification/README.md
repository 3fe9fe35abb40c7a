# 9cc: a model of the expression compiler

9cc is a small C compiler. At this stage it reads one expression from its
command-line argument and prints x86-64 assembly for a `main` that returns
the expression's value. The model covers three parts:

- the tokenizer (`tokenize`, `startswith`, `new_token`);
- the cursor primitives (`consume`, `expect`, `expect_number`, `at_eof`) and
  the recursive-descent parser (`expr` .. `primary`, building trees with
  `new_binary` / `new_node_num`);
- the stack-machine code generator `gen`.

Each part is stated against a partner definition:

- **Tokenizer.** `Lexer.Lexed` is a relation saying what a correct
  tokenization is: blanks, longest-match punctuators, maximal digit runs,
  and one final `Eof` token. `Lexer.Tokenize` produces exactly the token
  sequences that satisfy it.
- **Parser.** `Precedence.Show` prints a tree with the fewest parentheses
  the grammar needs. Parsing that printing gives back the same tree, which
  pins down both the binding order and the left associativity.
- **Code generator.** `Ast.Eval` gives a tree its meaning, with `idiv`'s
  truncation toward zero. On a small model of the x86 registers and
  stack, `gen(n)` pushes exactly `Eval(n)` and leaves the rest of the stack
  unchanged.
- **Whole pipeline.** `Compiler.CompileCorrect` says the program `main`
  emits leaves that value in `rax`. `Compiler.CompileRendered` starts from
  text: a printed tree written out with a blank after each token compiles
  to a program computing the tree's value.
- **Layout.** `ParseShape.ParseAlike` says the parser reads only each
  token's kind, punctuator text and value. So `Compiler.CompileIgnoresLayout`
  holds: inputs whose tokens differ only in where they stand, such as
  `1 + 2` and `1+2`, compile to the same instructions.

Modules:

| file | module | what it holds |
|---|---|---|
| `common.dfy` | `Common` | `Option`, `Result`, and the error kinds `error_at` reports |
| `lexer.dfy` | `Lexer` | tokens, `tokenize`, and the tokenization relation |
| `ast.dfy` | `Ast` | `NodeKind` / `Node`, and `Eval` |
| `parser.dfy` | `Parser` | cursor primitives and the seven grammar rules |
| `precedence.dfy` | `Precedence` | the printer and the parse round trip |
| `codegen.dfy` | `CodeGen` | the instruction set, the machine, `gen` and its correctness |
| `render.dfy` | `Rendering` | printed tokens written out as text, and `tokenize` reading them back |
| `shape.dfy` | `ParseShape` | the parser reads only the shape of each token |
| `compiler.dfy` | `Compiler` | `main`'s pipeline and end-to-end correctness |

The global cursor `token` is an explicit index. Each `for (;;)` folding loop
is a tail-recursive `...Rest` function. `exit(1)` inside `error_at` is an
`Err` result that carries the offset being reported. `Ast.BinOp` has the
eight binary kinds of `NodeKind` and no greater-than kind, so the parser can
only express `>` and `>=` by swapping operands.

`main` never calls `at_eof`. Tokens left after a complete expression are
therefore not an error. The model follows the code: `Parse` returns the
cursor where `expr` stopped, and `Compiler.TrailingTokensIgnored` shows an
input with leftovers still compiling. A stricter reading, in which leftovers
are rejected, is what one might expect from the grammar. The code does not
do that, and the model follows the code.

## Model

| member | source | states |
|---|---|---|
| Lexer.DecimalValue | 9cc/9cc.c:183 | the value of a digit run has at most as many decimal digits as the run, and exactly as many when the run has no leading zero |
| Lexer.DecimalValueOfShowNat | 9cc/9cc.c:183 | reading the printed digits back with base-10 `strtol` gives the number |
| Lexer.TwoCharPunctsMembers | 9cc/9cc.c:167-168 | a two-character text is one of `==` `!=` `<=` `>=` exactly when it has the character-level shape of one |
| Lexer.StartsWithTwoCharPunctIsStartsWith | 9cc/9cc.c:141-143 | the two-character test agrees with the four `startswith` calls on the input |
| Lexer.DigitRunEnd | 9cc/9cc.c:180-184 | the end of the digit run is within the input and past the start when the start is a digit |
| Lexer.DigitRunIsMaximal | 9cc/9cc.c:183-184 | every character of the run is a digit and the run cannot be extended |
| Lexer.DigitRunText | 9cc/9cc.c:183-184 | the text of the run is all digits and is followed by a non-digit or the end |
| Lexer.DigitsValueIsDecimal | 9cc/9cc.c:183 | the value accumulated over a digit range is the decimal value of its text |
| Lexer.NextLexeme | 9cc/9cc.c:166-188 | the token read at an offset starts there and is non-empty, and there is none exactly where the character fits no rule |
| Lexer.NextLexemeIsLexeme | 9cc/9cc.c:166-186 | the token read at an offset is a lexeme: longest-match punctuator or maximal digit run with its value |
| Lexer.TokenizeFrom | 9cc/9cc.c:159-191 | success ends with the `Eof` token at the end of the input; failure reports an offset where no rule applies, reached from the start by skipping blanks and whole lexemes |
| Lexer.TokenizeFromSound | 9cc/9cc.c:159-191 | every successful result of the scanning loop is a correct tokenization |
| Lexer.Tokenize | 9cc/9cc.c:153-193 | success is a correct tokenization of the whole input; failure reports an offset where no rule applies, reached from the start by skipping blanks and whole lexemes |
| Lexer.ScanStopsOnce | 9cc/9cc.c:159-188 | scanning blanks and lexemes from an offset meets at most one offset where no rule applies: the scan cannot pass such an offset |
| Lexer.TokenizeErrorOffset | 9cc/9cc.c:188 | a failed tokenization reports exactly the first offset the scan reaches where no rule applies |
| Lexer.LexemeNotBlank | 9cc/9cc.c:161-164 | a lexeme is non-empty and never starts on a blank |
| Lexer.DigitRunOfText | 9cc/9cc.c:180-184 | a maximal digit string at an offset is exactly the digit run found there |
| Lexer.NumberLexemeIsDigitRun | 9cc/9cc.c:180-184 | a number lexeme starts on a digit and spans the whole digit run |
| Lexer.ReservedLexemeIsLongest | 9cc/9cc.c:166-178 | a punctuator lexeme has two characters exactly when a two-character punctuator starts there |
| Lexer.LexemeIsNext | 9cc/9cc.c:166-186 | any lexeme at an offset is the token the tokenizer reads there: the lexical rules have one answer |
| Lexer.LexemeIsTokenized | 9cc/9cc.c:166-186 | the same, for any lexeme starting at the cursor |
| Lexer.LexedIsTokenized | 9cc/9cc.c:159-191 | every correct tokenization from an offset is what the scanning loop produces there |
| Lexer.TokenizeCharacterized | 9cc/9cc.c:153-193 | `Tokenize` succeeds with a sequence exactly when that sequence is a correct tokenization |
| Lexer.LexedAllowed | 9cc/9cc.c:159-191 | a correctly tokenized suffix contains only blanks and characters some rule accepts |
| Rendering.PrintableLexeme | 9cc/9cc.c:166-186 | a printable token written at an offset and followed by a blank is the lexeme the tokenizer reads there |
| Rendering.RenderLexed | 9cc/9cc.c:159-191 | printable tokens written out with a blank after each are correctly tokenized as themselves, at the offsets where they were written |
| Rendering.TokenizeRender | 9cc/9cc.c:153-193 | `tokenize` reads such text back as exactly the written tokens followed by `Eof` |
| Lexer.TokenizeOnlyAllowed | 9cc/9cc.c:188 | if tokenizing succeeds, no character of the input is one `error_at` would reject |
| Lexer.LexedShape | 9cc/9cc.c:191 | a tokenization ends with exactly one `Eof` token at the end of input; earlier tokens are lexemes, in order and non-overlapping |
| Lexer.TwoCharPunctuatorIsOneToken | 9cc/9cc.c:167-171 | where a two-character punctuator starts, the tokenizer emits it as one reserved token |
| Lexer.NumberTokenIsMaximalRun | 9cc/9cc.c:180-185 | a token on a digit is a number covering the maximal digit run, with its decimal value |
| Lexer.LexemeOnDigit | 9cc/9cc.c:180-185 | a lexeme on a digit is a number with the run's text and value |
| Ast.TruncDiv | 9cc/9cc.c:391-393 | the quotient of `idiv` truncates toward zero: magnitude bounds and the sign rule |
| Ast.TruncRem | 9cc/9cc.c:391-393 | the remainder of `idiv` restores the dividend, is smaller than the divisor and has the dividend's sign |
| Ast.Eval | 9cc/9cc.c:381-415 | whenever a comparison node has a value, it is 0 or 1 |
| Parser.AtEofOnlyAtEnd | 9cc/9cc.c:118-120 | on the tokenizer's output, `at_eof` holds exactly at the last token |
| Parser.Consume | 9cc/9cc.c:78-92 | the cursor advances by one exactly when the current token is a punctuator with exactly the text `op` |
| Parser.Expect | 9cc/9cc.c:96-103 | like `consume`, and a mismatch is an error naming `op` at the current token's offset |
| Parser.ExpectNumber | 9cc/9cc.c:107-115 | a number token gives its value and advances; anything else is an error at its offset |
| Parser.Expr | 9cc/9cc.c:255-257 | a parse advances within the stream, a failure names a wrong token, and success stops at a token that is no binary operator |
| Parser.Equality | 9cc/9cc.c:264-276 | the same, stopping before any `==` or `!=` |
| Parser.EqualityRest | 9cc/9cc.c:267-275 | the fold never moves back, a failure names a wrong token, and when entered where a relational operand stopped it stops where no operator follows |
| Parser.Relational | 9cc/9cc.c:283-299 | a parse advances, a failure names a wrong token, and success stops before any operator of rank 3 or tighter |
| Parser.RelationalRest | 9cc/9cc.c:286-298 | the fold never moves back, a failure names a wrong token, and when entered where an additive operand stopped it stops where no comparison or tighter operator follows |
| Parser.Additive | 9cc/9cc.c:306-318 | a parse advances, a failure names a wrong token, and success stops before any `+` `-` `*` `/` |
| Parser.AdditiveRest | 9cc/9cc.c:309-317 | the fold never moves back, a failure names a wrong token, and when entered where a multiplicative operand stopped it stops where no `+` `-` `*` `/` follows |
| Parser.Multiplicative | 9cc/9cc.c:324-336 | a parse advances, a failure names a wrong token, and success stops before any `*` or `/` |
| Parser.MultiplicativeRest | 9cc/9cc.c:327-335 | the fold never moves back, a failure names a wrong token, and it stops where no `*` or `/` follows |
| Parser.Unary | 9cc/9cc.c:342-352 | a parse consumes at least one token within the stream; a failure names a wrong token |
| Parser.Primary | 9cc/9cc.c:357-367 | a parse consumes at least one token; failure is a missing `)` or a non-number, at that token |
| Parser.PrimaryUnclosed | 9cc/9cc.c:359-362 | a `(` whose expression is not followed by `)` is an error naming `)` at the token found instead |
| Parser.PrimaryNotANumber | 9cc/9cc.c:342-367 | a token that is not `(` or a number, where a primary (or an unsigned unary operand) is expected, is an error at that token |
| Parser.Parse | 9cc/9cc.c:428-430 | `main`'s single `expr()` from the first token advances within the stream and stops at no binary operator |
| Precedence.ParseOperand | 9cc/9cc.c:264-336 | a level reads the first operand of a printed chain and then folds from its end |
| Precedence.ParseChain | 9cc/9cc.c:264-336 | a level reads a printed chain of its own operators, folding to the left |
| Precedence.ParseChainStep | 9cc/9cc.c:264-336 | after the left part of a chain, the fold reads the operator and the right operand and rebuilds the node |
| Precedence.ParseShown | 9cc/9cc.c:255-367 | every precedence level reads the printing of a tree at its rank back as that very tree |
| Precedence.ParseParenthesized | 9cc/9cc.c:357-363 | `unary` reads a parenthesized printing back as the inner tree |
| Precedence.ParseRoundTrip | 9cc/9cc.c:255-367 | `expr` reads the printing of any tree back as the same tree, which fixes precedence and left associativity |
| Precedence.SubtractionFoldsLeft | 9cc/9cc.c:306-318 | `x - y - z` parses as `(x - y) - z` |
| Precedence.ProductBindsTighter | 9cc/9cc.c:306-336 | `x + y * z` parses as `x + (y * z)` |
| Precedence.AdditiveBeforeGreater | 9cc/9cc.c:283-284 | the additive level reads the left operand of `a > b` whole |
| Precedence.AdditiveBeforeStop | 9cc/9cc.c:291-294 | the additive level reads the right operand of `a > b` whole |
| Precedence.RelationalSwap | 9cc/9cc.c:291-294 | `a > b` is read as `b < a`, and `a >= b` as `b <= a` |
| Precedence.RelationalGreater | 9cc/9cc.c:283-299 | the relational level reads a printed `a > b` (`a >= b`) as `Lt(b, a)` (`Le(b, a)`) |
| Precedence.ParseGreater | 9cc/9cc.c:283-299 | a whole input `a > b` (`a >= b`) parses as `Lt(b, a)` (`Le(b, a)`), whose value is 1 exactly when `a > b` (`a >= b`) holds |
| Precedence.ParseSigns | 9cc/9cc.c:342-350 | prefix `+` is dropped and each prefix `-` wraps the operand in `0 - x` |
| Precedence.SignedShown | 9cc/9cc.c:342-352 | `unary` reads signs followed by a printed operand as the signed tree |
| Precedence.UnaryShown | 9cc/9cc.c:342-367 | `unary` reads a printed operand of rank 0 as that tree |
| Precedence.EvalSigns | 9cc/9cc.c:347-349 | a run of signs negates the value exactly when it holds an odd number of minuses |
| ParseShape.PrimitivesAlike | 9cc/9cc.c:78-115 | `consume` and `expect_number` give the same answers on tokens of the same shape |
| ParseShape.ExprAlike | 9cc/9cc.c:255-257 | `expr` on streams of alike tokens gives the same tree and cursor, or fails on both |
| ParseShape.EqualityAlike | 9cc/9cc.c:264-276 | the same for `equality` |
| ParseShape.EqualityRestAlike | 9cc/9cc.c:267-275 | the same for the loop of `equality`, from any tree folded so far |
| ParseShape.RelationalAlike | 9cc/9cc.c:283-299 | the same for `relational` |
| ParseShape.RelationalRestAlike | 9cc/9cc.c:286-298 | the same for the loop of `relational`, operand swap included |
| ParseShape.AdditiveAlike | 9cc/9cc.c:306-318 | the same for `add` |
| ParseShape.AdditiveRestAlike | 9cc/9cc.c:309-317 | the same for the loop of `add` |
| ParseShape.MultiplicativeAlike | 9cc/9cc.c:324-336 | the same for `mul` |
| ParseShape.MultiplicativeRestAlike | 9cc/9cc.c:327-335 | the same for the loop of `mul` |
| ParseShape.UnaryAlike | 9cc/9cc.c:342-352 | the same for `unary` |
| ParseShape.PrimaryAlike | 9cc/9cc.c:357-367 | the same for `primary` |
| ParseShape.ParseAlike | 9cc/9cc.c:429 | `main`'s `expr()` gives the same tree and final cursor on alike streams, or fails on both: token offsets never reach the tree |
| CodeGen.OpCode | 9cc/9cc.c:381-415 | the instructions for an operator push and pop nothing; they end with `movzb` exactly for the comparisons, and use `idiv` exactly for division |
| CodeGen.Gen | 9cc/9cc.c:369-418 | the code starts by pushing a literal and pushes exactly one value more than it pops; what it computes is `CodeGen.GenCorrect` |
| CodeGen.OpCodeCorrect | 9cc/9cc.c:381-415 | the operator's instructions compute the node's operation of `rax` and `rdi` in `rax`, fault exactly on division by zero, and keep the stack |
| CodeGen.DivCorrect | 9cc/9cc.c:391-393 | `cqo; idiv rdi` traps on a zero divisor and otherwise leaves the truncated quotient and remainder |
| CodeGen.CompareCorrect | 9cc/9cc.c:395-414 | `cmp; setcc al; movzb rax, al` leaves 1 or 0 in `rax` as the condition holds |
| CodeGen.SetAlMovzb | 9cc/9cc.c:397-398 | writing `al` and zero-extending it leaves exactly the flag in `rax` |
| CodeGen.CombineCorrect | 9cc/9cc.c:378-417 | with the operands on top of the stack, the tail of `gen` replaces them with the node's value or faults on division by zero |
| CodeGen.GenCorrect | 9cc/9cc.c:369-418 | `gen(n)` pushes exactly the value of `n` and keeps the stack below; it faults exactly when `n` divides by zero |
| Compiler.Frontend | 9cc/9cc.c:428-430 | a tokenize error is returned as is, with the offset `tokenize` reports; input that tokenizes succeeds exactly when `expr` parses it, stopping inside the token stream and before any binary operator |
| Compiler.Compile | 9cc/9cc.c:430-443 | code is emitted exactly when the input tokenizes and parses, and it ends with `pop rax` |
| Compiler.CompileCorrect | 9cc/9cc.c:430-444 | the emitted program leaves the expression's value in `rax` and the caller's stack as it was, or faults exactly on division by zero |
| Compiler.CompileShown | 9cc/9cc.c:428-444 | for input whose tokens print a tree, the emitted program computes that tree's value |
| Compiler.CompileRendered | 9cc/9cc.c:428-444 | a printed tree written out as text with a blank after each token compiles, and the program computes the tree's value or faults exactly on division by zero |
| Compiler.TrailingTokensIgnored | 9cc/9cc.c:428-430 | a complete expression followed by any token that cannot continue it (a number, `(`, `)`) is still accepted, with the cursor on that token and not at `Eof` |
| Compiler.CompileIgnoresLayout | 9cc/9cc.c:428-444 | two inputs whose tokens have the same shapes compile to the same instructions, or both fail |
| Compiler.SumTokensAlike | 9cc/9cc.c:159-186 | `1 + 2` and `1+2` tokenize to tokens of the same shapes, the blanks producing none |
| Compiler.SpacedSumCompilesAlike | 9cc/9cc.c:159-164 | `1 + 2` and `1+2` both compile, to the same instructions |

## Left out

- Error output: the message text and caret printed by `error_at` (9cc/9cc.c:52-63) and `error` (66-72) are not modelled. The error value keeps the offset being reported and what was expected.
- The argument-count check in `main` (421-425): the model starts from the argument string.
- The assembly preamble and the final `ret` (432-444) are fixed text, not modelled instructions. The exit status, which is `rax` truncated to a byte by the operating system, is not modelled.
- Allocation with `calloc` and the linked-list layout (`new_token`, `new_node`): tokens are a sequence and trees a datatype. `calloc`'s zeroing shows up only as `val == 0` on punctuator tokens.
- Integer width: `strtol` into a 32-bit `int`, the 32-bit `push %d`, and 64-bit register wrap-around are not modelled. Values are unbounded integers, so `idiv`'s overflow trap on the most negative number divided by -1 does not arise.
- x86 flags: `cmp` is modelled as recording its two operands for the following `setcc`, not as separate flag bits.
- Characters versus bytes: the input is a sequence of Unicode characters, while the program reads bytes. The two agree up to the first non-ASCII character, and tokenizing fails there in both.
- Embedded NUL characters: the argument is a C string, so the model's input is the characters before its terminator.
- Lexer.NextLexeme: its ensures state only the position, the length and when it fails. That the token is a correct lexeme is `Lexer.NextLexemeIsLexeme`.
- Lexer.TokenizeFrom: its ensures do not state that the result is a correct tokenization. `Lexer.TokenizeFromSound` states that, and `Lexer.Tokenize` carries it.
- Parser.Expr: a parse error is stated only as a wrong token at or after the cursor, not as the exact token `error_at` points to. The offset is pinned only in the cases `Parser.PrimaryUnclosed` and `Parser.PrimaryNotANumber` cover.
- Parser.Equality: a parse error is stated only as a wrong token at or after the cursor, not as the exact token `error_at` points to. The offset is pinned only in the cases `Parser.PrimaryUnclosed` and `Parser.PrimaryNotANumber` cover.
- Parser.EqualityRest: a parse error is stated only as a wrong token at or after the cursor, not as the exact token `error_at` points to. The offset is pinned only in the cases `Parser.PrimaryUnclosed` and `Parser.PrimaryNotANumber` cover.
- Parser.Relational: a parse error is stated only as a wrong token at or after the cursor, not as the exact token `error_at` points to. The offset is pinned only in the cases `Parser.PrimaryUnclosed` and `Parser.PrimaryNotANumber` cover.
- Parser.RelationalRest: a parse error is stated only as a wrong token at or after the cursor, not as the exact token `error_at` points to. The offset is pinned only in the cases `Parser.PrimaryUnclosed` and `Parser.PrimaryNotANumber` cover.
- Parser.Additive: a parse error is stated only as a wrong token at or after the cursor, not as the exact token `error_at` points to. The offset is pinned only in the cases `Parser.PrimaryUnclosed` and `Parser.PrimaryNotANumber` cover.
- Parser.AdditiveRest: a parse error is stated only as a wrong token at or after the cursor, not as the exact token `error_at` points to. The offset is pinned only in the cases `Parser.PrimaryUnclosed` and `Parser.PrimaryNotANumber` cover.
- Parser.Multiplicative: a parse error is stated only as a wrong token at or after the cursor, not as the exact token `error_at` points to. The offset is pinned only in the cases `Parser.PrimaryUnclosed` and `Parser.PrimaryNotANumber` cover.
- Parser.MultiplicativeRest: a parse error is stated only as a wrong token at or after the cursor, not as the exact token `error_at` points to. The offset is pinned only in the cases `Parser.PrimaryUnclosed` and `Parser.PrimaryNotANumber` cover.
- Parser.Unary: a parse error is stated only as a wrong token at or after the cursor, not as the exact token `error_at` points to. The offset is pinned only in the cases `Parser.PrimaryUnclosed` and `Parser.PrimaryNotANumber` cover.
- Parser.Primary: a parse error is stated only as a wrong token at or after the cursor, not as the exact token `error_at` points to. The offset is pinned only in the cases `Parser.PrimaryUnclosed` and `Parser.PrimaryNotANumber` cover.
- Parser.Parse: a parse error is stated only as a wrong token at or after the cursor, not as the exact token `error_at` points to. The offset is pinned only in the cases `Parser.PrimaryUnclosed` and `Parser.PrimaryNotANumber` cover.
