/**
 The pipeline of 9cc's `main`: tokenize the argument, parse one expression
 with `expr`, emit the code for the tree, then `pop rax` so that the value
 of the expression is in `rax` when `ret` returns it as the exit status.

 `main` never calls `at_eof`: tokens left after the expression are not an
 error, so the frontend returns the cursor where `expr` stopped and accepts
 whatever follows it.  The fixed preamble (`.intel_syntax`, `.globl main`,
 `main:`) and the final `ret` are text around the code, not modelled steps.
 */
module Compiler {
  import opened Common
  import opened Lexer
  import opened Ast
  import opened Parser
  import opened Precedence
  import opened CodeGen
  import opened Rendering
  import opened ParseShape

  /** The tree `main` builds from its argument and the cursor `expr` stopped
      at; a tokenize error comes first, then a parse error. */
  function Frontend(src: string): (r: Result<Parsed>)
    ensures Tokenize(src).Err? ==> r == Err(Tokenize(src).error)
    ensures Tokenize(src).Ok? ==> (r.Ok? <==> Parse(Tokenize(src).value).Ok?)
    ensures r.Ok? ==> Tokenize(src).Ok? && r.value.next < |Tokenize(src).value|
    ensures r.Ok? ==> StopsAt(Tokenize(src).value, r.value.next, 4)
  {
    var ts :- Tokenize(src);
    LexedShape(src, 0, ts);
    Parse(ts)
  }

  /** The instructions `main` prints between `main:` and `ret`. */
  function Compile(src: string): (r: Result<seq<Instr>>)
    ensures r.Ok? <==> Frontend(src).Ok?
    ensures r.Ok? ==> |r.value| > 0 && r.value[|r.value| - 1] == PopRax
  {
    var p :- Frontend(src);
    Ok(Gen(p.node) + [PopRax])
  }

  /** The compiled program leaves the value of the parsed expression in
      `rax` and the caller's stack as it found it; it faults exactly when
      the expression divides by zero. */
  lemma CompileCorrect(src: string, m: Machine)
    requires Frontend(src).Ok?
    ensures Eval(Frontend(src).value.node).None? ==> Exec(Compile(src).value, m) == None
    ensures Eval(Frontend(src).value.node).Some? ==>
              && Exec(Compile(src).value, m).Some?
              && Exec(Compile(src).value, m).value.stack == m.stack
              && Exec(Compile(src).value, m).value.rax == Eval(Frontend(src).value.node).value
  {
    var n := Frontend(src).value.node;
    ExecAppend(Gen(n), [PopRax], m);
    GenCorrect(n, m);
    if Eval(n).Some? {
      var m1 := Exec(Gen(n), m).value;
      assert m1.stack[..|m1.stack| - 1] == m.stack;
    }
  }

  /** From source text whose tokens are a printed tree `n`, the compiled
      program computes the value of `n` itself: the frontend rebuilds `n`
      with the usual precedence and left associativity. */
  lemma CompileShown(src: string, n: Node, ts: seq<Token>, m: Machine)
    requires NonNegative(n) && Tokenize(src) == Ok(ts)
    requires Matches(ts, 0, Show(n, 4)) && |Show(n, 4)| < |ts|
    requires StopsAt(ts, |Show(n, 4)|, 4)
    ensures Frontend(src) == Ok(Parsed(n, |Show(n, 4)|))
    ensures Eval(n).Some? ==> Exec(Compile(src).value, m).Some? &&
                              Exec(Compile(src).value, m).value.rax == Eval(n).value
    ensures Eval(n).None? ==> Exec(Compile(src).value, m) == None
  {
    LexedShape(src, 0, ts);
    ParseRoundTrip(n, ts);
    CompileCorrect(src, m);
  }

  /** The whole pipeline from text: a printed tree written out with a blank
      after each token compiles, and the program computes the tree's value. */
  lemma CompileRendered(n: Node, m: Machine)
    requires NonNegative(n)
    ensures Frontend(Render(Show(n, 4))) == Ok(Parsed(n, |Show(n, 4)|))
    ensures Eval(n).Some? ==> Exec(Compile(Render(Show(n, 4))).value, m).Some? &&
                              Exec(Compile(Render(Show(n, 4))).value, m).value.rax == Eval(n).value
    ensures Eval(n).None? ==> Exec(Compile(Render(Show(n, 4))).value, m) == None
  {
    var toks := Show(n, 4);
    var src := Render(toks);
    ShowPrintable(n, 4);
    TokenizeRender(toks);
    var ts := Place(toks, 0) + [EofAt(src)];
    assert ts[|toks|] == EofAt(src);
    CompileShown(src, n, ts, m);
  }

  /** Blanks between tokens do not matter: two inputs whose tokens have the
      same shapes, wherever they stand, compile to the same instructions or
      both fail. */
  lemma CompileIgnoresLayout(a: string, b: string)
    requires Tokenize(a).Ok? && Tokenize(b).Ok? && Alike(Tokenize(a).value, Tokenize(b).value)
    ensures Compile(a).Ok? <==> Compile(b).Ok?
    ensures Compile(a).Ok? ==> Compile(a).value == Compile(b).value
  {
    LexedShape(a, 0, Tokenize(a).value);
    LexedShape(b, 0, Tokenize(b).value);
    ParseAlike(Tokenize(a).value, Tokenize(b).value);
  }

  /** After the `1` of `1+2`: `+`, `2` and the end. */
  lemma TightSumTail(s: string)
    requires s == "1+2"
    ensures Lexed(s, 1, [Token(Reserved, 0, 1, "+"), Token(Number, 2, 2, "2"), EofAt(s)])
  {
    var ts := [Token(Reserved, 0, 1, "+"), Token(Number, 2, 2, "2"), EofAt(s)];
    assert Lexed(s, 3, ts[2..]);
    LexedCons(s, ts[1], ts[2..]);
    assert ts[1..] == [ts[1]] + ts[2..];
    LexedCons(s, ts[0], ts[1..]);
    assert ts == [ts[0]] + ts[1..];
  }

  /** `1+2` is read as a number, `+` and a number, each where it stands. */
  lemma TightSumTokens(s: string)
    requires s == "1+2"
    ensures Tokenize(s) == Ok([Token(Number, 1, 0, "1"), Token(Reserved, 0, 1, "+"),
                               Token(Number, 2, 2, "2"), EofAt(s)])
  {
    var tail := [Token(Reserved, 0, 1, "+"), Token(Number, 2, 2, "2"), EofAt(s)];
    TightSumTail(s);
    var ts := [Token(Number, 1, 0, "1"), Token(Reserved, 0, 1, "+"), Token(Number, 2, 2, "2"), EofAt(s)];
    LexedCons(s, ts[0], tail);
    assert ts == [ts[0]] + tail;
    TokenizeCharacterized(s, ts);
  }

  /** After the `1` of `1 + 2`: a blank, `+`, a blank, `2` and the end. */
  lemma SpacedSumTail(s: string)
    requires s == "1 + 2"
    ensures Lexed(s, 1, [Token(Reserved, 0, 2, "+"), Token(Number, 2, 4, "2"), EofAt(s)])
  {
    var ts := [Token(Reserved, 0, 2, "+"), Token(Number, 2, 4, "2"), EofAt(s)];
    assert Lexed(s, 5, ts[2..]);
    LexedCons(s, ts[1], ts[2..]);
    LexedSkip(s, 3, ts[1..]);
    assert ts[1..] == [ts[1]] + ts[2..];
    LexedCons(s, ts[0], ts[1..]);
    LexedSkip(s, 1, ts);
    assert ts == [ts[0]] + ts[1..];
  }

  /** `1 + 2` gives the same tokens at other offsets. */
  lemma SpacedSumTokens(s: string)
    requires s == "1 + 2"
    ensures Tokenize(s) == Ok([Token(Number, 1, 0, "1"), Token(Reserved, 0, 2, "+"),
                               Token(Number, 2, 4, "2"), EofAt(s)])
  {
    var tail := [Token(Reserved, 0, 2, "+"), Token(Number, 2, 4, "2"), EofAt(s)];
    SpacedSumTail(s);
    var ts := [Token(Number, 1, 0, "1"), Token(Reserved, 0, 2, "+"), Token(Number, 2, 4, "2"), EofAt(s)];
    LexedCons(s, ts[0], tail);
    assert ts == [ts[0]] + tail;
    TokenizeCharacterized(s, ts);
  }

  /** `1+2` is the printing of the tree `1 + 2`, and it parses back to it. */
  lemma TightSumParses(s: string)
    requires s == "1+2"
    ensures Frontend(s) == Ok(Parsed(Bin(Add, Num(1), Num(2)), 3))
  {
    TightSumTokens(s);
    var n := Bin(Add, Num(1), Num(2));
    assert NonNegative(Num(1)) && NonNegative(Num(2)) && NonNegative(n);
    SumShown();
    CompileShown(s, n, Tokenize(s).value, Machine([], 0, 0, 0, Flags(0, 0)));
  }

  lemma SumShown()
    ensures Show(Bin(Add, Num(1), Num(2)), 4) == [NumToken(1), Punct("+"), NumToken(2)]
  {
  }

  /** The tokens of `1 + 2` and `1+2` have the same shapes. */
  lemma SumTokensAlike(a: string, b: string)
    requires a == "1 + 2" && b == "1+2"
    ensures Tokenize(a).Ok? && Tokenize(b).Ok? && Alike(Tokenize(a).value, Tokenize(b).value)
  {
    SpacedSumTokens(a);
    TightSumTokens(b);
  }

  /** `1 + 2` and `1+2` compile to the same instructions. */
  lemma SpacedSumCompilesAlike(a: string, b: string)
    requires a == "1 + 2" && b == "1+2"
    ensures Compile(b).Ok? && Compile(a) == Compile(b)
  {
    TightSumParses(b);
    SumTokensAlike(a, b);
    CompileIgnoresLayout(a, b);
  }

  /** Whatever follows a complete expression is ignored: a tree printed and
      then followed by any token that cannot continue it (a number, `(`,
      `)`) still compiles, with the cursor left on that token rather than at
      the end of input. */
  lemma TrailingTokensIgnored(src: string, n: Node, ts: seq<Token>)
    requires NonNegative(n) && Tokenize(src) == Ok(ts)
    requires Matches(ts, 0, Show(n, 4)) && |Show(n, 4)| < |ts|
    requires ts[|Show(n, 4)|].kind != Eof && StopsAt(ts, |Show(n, 4)|, 4)
    ensures Frontend(src) == Ok(Parsed(n, |Show(n, 4)|))
    ensures !AtEof(ts, Frontend(src).value.next)
  {
    LexedShape(src, 0, ts);
    ParseRoundTrip(n, ts);
  }
}
