/**
 The recursive-descent parser of 9cc (`expr` .. `primary`) and its cursor
 primitives (`consume`, `expect`, `expect_number`, `at_eof`).

 The C parser keeps the current token in the global `token`; here every
 parse function takes the cursor `pos` (an index into the token sequence)
 and returns the tree together with the cursor after it.  Each `for (;;)`
 loop that folds operators left-associatively becomes a tail-recursive
 `...Rest` function carrying the tree built so far.  `exit(1)` inside
 `error_at` becomes an `Err` result.

 The grammar, lowest binding first:
   expr           = equality
   equality       = relational ("==" relational | "!=" relational)*
   relational     = additive ("<" additive | "<=" additive | ">" additive | ">=" additive)*
   additive       = multiplicative ("+" multiplicative | "-" multiplicative)*
   multiplicative = unary ("*" unary | "/" unary)*
   unary          = ("+" | "-") unary | primary
   primary        = "(" expr ")" | num

 Termination: every call either consumes a token first or moves to a
 rule further down the list; the measure is (tokens left, rule rank).
 */
module Parser {
  import opened Common
  import opened Lexer
  import opened Ast

  /** A token sequence as `tokenize` leaves it: non-empty, ending in `Eof`. */
  predicate IsStream(ts: seq<Token>) {
    |ts| > 0 && ts[|ts| - 1].kind == Eof
  }

  /** A parsed subtree and the cursor just after it. */
  datatype Parsed = Parsed(node: Node, next: nat)

  /** `consume(op)`: if the current token is the punctuator `op` (same kind,
      same length, same bytes) the cursor moves past it. */
  function Consume(ts: seq<Token>, pos: nat, op: string): (r: Option<nat>)
    requires pos < |ts|
    ensures r.Some? <==> ts[pos].kind == Reserved && ts[pos].text == op
    ensures r.Some? ==> r.value == pos + 1
    ensures r.Some? && IsStream(ts) ==> r.value < |ts|
  {
    var t := ts[pos];
    if t.kind != Reserved || |op| != |t.text| || exists j :: 0 <= j < |op| && t.text[j] != op[j] then
      None
    else
      Some(pos + 1)
  }

  /** `expect(op)`: like `consume(op)`, but a mismatch is an error reported
      at the current token. */
  function Expect(ts: seq<Token>, pos: nat, op: string): (r: Result<nat>)
    requires pos < |ts|
    ensures r.Ok? <==> Consume(ts, pos, op).Some?
    ensures r.Ok? ==> r.value == pos + 1
    ensures r.Err? ==> r.error == NotExpected(op, ts[pos].pos)
  {
    match Consume(ts, pos, op)
    case Some(next) => Ok(next)
    case None => Err(NotExpected(op, ts[pos].pos))
  }

  /** `expect_number()`: the value of the current token if it is a number,
      else an error reported at the current token. */
  function ExpectNumber(ts: seq<Token>, pos: nat): (r: Result<(int, nat)>)
    requires pos < |ts|
    ensures r.Ok? <==> ts[pos].kind == Number
    ensures r.Ok? ==> r.value == (ts[pos].val, pos + 1)
    ensures r.Err? ==> r.error == NotANumber(ts[pos].pos)
  {
    if ts[pos].kind != Number then Err(NotANumber(ts[pos].pos)) else Ok((ts[pos].val, pos + 1))
  }

  /** `at_eof()`.  The driver never calls it: tokens after a complete
      expression are left unread rather than rejected. */
  predicate AtEof(ts: seq<Token>, pos: nat)
    requires pos < |ts|
  {
    ts[pos].kind == Eof
  }

  /** On the output of `tokenize`, `at_eof()` holds exactly at the last token:
      the stream has one `Eof` token and it comes last. */
  lemma AtEofOnlyAtEnd(s: string, ts: seq<Token>, pos: nat)
    requires Lexed(s, 0, ts) && pos < |ts|
    ensures IsStream(ts)
    ensures AtEof(ts, pos) <==> pos == |ts| - 1
  {
    LexedShape(s, 0, ts);
  }

  /** The error `e` is one the parser reports at token `k`: a token that is
      not a number where `expect_number()` ran, or a token other than `)`
      where `expect(")")` ran; either way at that token's offset. */
  predicate FailsAt(ts: seq<Token>, k: nat, e: Error)
    requires k < |ts|
  {
    match e
    case NotANumber(at) => ts[k].kind != Number && at == ts[k].pos
    case NotExpected(op, at) => op == ")" && Consume(ts, k, ")").None? && at == ts[k].pos
    case Untokenizable(_) => false
  }

  /** A failed parse from `pos` names a token at or after `pos` that is wrong. */
  predicate Reported(ts: seq<Token>, pos: nat, r: Result<Parsed>) {
    r.Err? ==> exists k :: pos <= k < |ts| && FailsAt(ts, k, r.error)
  }

  /** A successful parse from `pos` consumed at least one token and stopped
      inside the stream (at the latest on its `Eof`); a failed one reports a
      wrong token. */
  predicate Advances(ts: seq<Token>, pos: nat, r: Result<Parsed>) {
    && (r.Ok? ==> pos < r.value.next < |ts|)
    && Reported(ts, pos, r)
  }

  /** The rank of a binary operator's text: 1 for `*` `/`, 2 for `+` `-`,
      3 for `<` `<=` `>` `>=`, 4 for `==` `!=`, 0 for anything else. */
  function OpRank(text: string): nat {
    if text == "*" || text == "/" then 1
    else if text == "+" || text == "-" then 2
    else if text == "<" || text == "<=" || text == ">" || text == ">=" then 3
    else if text == "==" || text == "!=" then 4
    else 0
  }

  /** The token at `q` is not a binary operator of rank 1..`rank`: a parse
      at that precedence level has nothing left to fold there. */
  predicate StopsAt(ts: seq<Token>, q: nat, rank: nat)
    requires q < |ts|
  {
    !(ts[q].kind == Reserved && 1 <= OpRank(ts[q].text) <= rank)
  }

  /** The ensures shared by a precedence level of rank `rank`: the cursor
      advanced inside the stream, and the parse went as far as it could. */
  predicate LevelResult(ts: seq<Token>, pos: nat, r: Result<Parsed>, rank: nat) {
    Advances(ts, pos, r) && (r.Ok? ==> StopsAt(ts, r.value.next, rank))
  }

  /** The ensures shared by the folding loop of rank `rank` entered at `pos`:
      it never moves the cursor back, and it stops only where no operator of
      its level follows (nor, if the operand before `pos` also stopped
      there, one of a tighter level). */
  predicate RestResult(ts: seq<Token>, pos: nat, r: Result<Parsed>, rank: nat)
    requires pos < |ts| && rank >= 1
  {
    && (r.Ok? ==> pos <= r.value.next < |ts|)
    && Reported(ts, pos, r)
    && (r.Ok? && StopsAt(ts, pos, rank - 1) ==> StopsAt(ts, r.value.next, rank))
  }

  /** `expr()`. */
  function Expr(ts: seq<Token>, pos: nat): (r: Result<Parsed>)
    requires IsStream(ts) && pos < |ts|
    ensures LevelResult(ts, pos, r, 4)
    decreases |ts| - pos, 10
  {
    Equality(ts, pos)
  }

  /** `equality()`: the first operand, then the folding loop. */
  function Equality(ts: seq<Token>, pos: nat): (r: Result<Parsed>)
    requires IsStream(ts) && pos < |ts|
    ensures LevelResult(ts, pos, r, 4)
    decreases |ts| - pos, 9
  {
    var first :- Relational(ts, pos);
    EqualityRest(ts, first.next, first.node)
  }

  /** The loop of `equality()` with `lhs` folded so far. */
  function EqualityRest(ts: seq<Token>, pos: nat, lhs: Node): (r: Result<Parsed>)
    requires IsStream(ts) && pos < |ts|
    ensures RestResult(ts, pos, r, 4)
    decreases |ts| - pos, 8
  {
    if Consume(ts, pos, "==").Some? then
      var rhs :- Relational(ts, pos + 1);
      EqualityRest(ts, rhs.next, Bin(Eq, lhs, rhs.node))
    else if Consume(ts, pos, "!=").Some? then
      var rhs :- Relational(ts, pos + 1);
      EqualityRest(ts, rhs.next, Bin(Ne, lhs, rhs.node))
    else
      Ok(Parsed(lhs, pos))
  }

  /** `relational()`. */
  function Relational(ts: seq<Token>, pos: nat): (r: Result<Parsed>)
    requires IsStream(ts) && pos < |ts|
    ensures LevelResult(ts, pos, r, 3)
    decreases |ts| - pos, 7
  {
    var first :- Additive(ts, pos);
    RelationalRest(ts, first.next, first.node)
  }

  /** The loop of `relational()`; `>` and `>=` swap their operands into
      `Lt` and `Le`. */
  function RelationalRest(ts: seq<Token>, pos: nat, lhs: Node): (r: Result<Parsed>)
    requires IsStream(ts) && pos < |ts|
    ensures RestResult(ts, pos, r, 3)
    decreases |ts| - pos, 6
  {
    if Consume(ts, pos, "<").Some? then
      var rhs :- Additive(ts, pos + 1);
      RelationalRest(ts, rhs.next, Bin(Lt, lhs, rhs.node))
    else if Consume(ts, pos, "<=").Some? then
      var rhs :- Additive(ts, pos + 1);
      RelationalRest(ts, rhs.next, Bin(Le, lhs, rhs.node))
    else if Consume(ts, pos, ">").Some? then
      var rhs :- Additive(ts, pos + 1);
      RelationalRest(ts, rhs.next, Bin(Lt, rhs.node, lhs))
    else if Consume(ts, pos, ">=").Some? then
      var rhs :- Additive(ts, pos + 1);
      RelationalRest(ts, rhs.next, Bin(Le, rhs.node, lhs))
    else
      Ok(Parsed(lhs, pos))
  }

  /** `add()`. */
  function Additive(ts: seq<Token>, pos: nat): (r: Result<Parsed>)
    requires IsStream(ts) && pos < |ts|
    ensures LevelResult(ts, pos, r, 2)
    decreases |ts| - pos, 5
  {
    var first :- Multiplicative(ts, pos);
    AdditiveRest(ts, first.next, first.node)
  }

  /** The loop of `add()`. */
  function AdditiveRest(ts: seq<Token>, pos: nat, lhs: Node): (r: Result<Parsed>)
    requires IsStream(ts) && pos < |ts|
    ensures RestResult(ts, pos, r, 2)
    decreases |ts| - pos, 4
  {
    if Consume(ts, pos, "+").Some? then
      var rhs :- Multiplicative(ts, pos + 1);
      AdditiveRest(ts, rhs.next, Bin(Add, lhs, rhs.node))
    else if Consume(ts, pos, "-").Some? then
      var rhs :- Multiplicative(ts, pos + 1);
      AdditiveRest(ts, rhs.next, Bin(Sub, lhs, rhs.node))
    else
      Ok(Parsed(lhs, pos))
  }

  /** `mul()`. */
  function Multiplicative(ts: seq<Token>, pos: nat): (r: Result<Parsed>)
    requires IsStream(ts) && pos < |ts|
    ensures LevelResult(ts, pos, r, 1)
    decreases |ts| - pos, 3
  {
    var first :- Unary(ts, pos);
    MultiplicativeRest(ts, first.next, first.node)
  }

  /** The loop of `mul()`. */
  function MultiplicativeRest(ts: seq<Token>, pos: nat, lhs: Node): (r: Result<Parsed>)
    requires IsStream(ts) && pos < |ts|
    ensures RestResult(ts, pos, r, 1)
    decreases |ts| - pos, 2
  {
    if Consume(ts, pos, "*").Some? then
      var rhs :- Unary(ts, pos + 1);
      MultiplicativeRest(ts, rhs.next, Bin(Mul, lhs, rhs.node))
    else if Consume(ts, pos, "/").Some? then
      var rhs :- Unary(ts, pos + 1);
      MultiplicativeRest(ts, rhs.next, Bin(Div, lhs, rhs.node))
    else
      Ok(Parsed(lhs, pos))
  }

  /** `unary()`: a prefix `+` is dropped and a prefix `-x` becomes `0 - x`. */
  function Unary(ts: seq<Token>, pos: nat): (r: Result<Parsed>)
    requires IsStream(ts) && pos < |ts|
    ensures Advances(ts, pos, r)
    decreases |ts| - pos, 1
  {
    if Consume(ts, pos, "+").Some? then
      Unary(ts, pos + 1)
    else if Consume(ts, pos, "-").Some? then
      var operand :- Unary(ts, pos + 1);
      Ok(Parsed(Bin(Sub, Num(0), operand.node), operand.next))
    else
      Primary(ts, pos)
  }

  /** `primary()`: a parenthesized expression, which must be closed, or a
      number. */
  function Primary(ts: seq<Token>, pos: nat): (r: Result<Parsed>)
    requires IsStream(ts) && pos < |ts|
    ensures Advances(ts, pos, r)
    decreases |ts| - pos, 0
  {
    if Consume(ts, pos, "(").Some? then
      var inner :- Expr(ts, pos + 1);
      match Expect(ts, inner.next, ")")
      case Ok(close) => Ok(Parsed(inner.node, close))
      case Err(e) => assert FailsAt(ts, inner.next, e); Err(e)
    else
      match ExpectNumber(ts, pos)
      case Ok(num) => Ok(Parsed(Num(num.0), num.1))
      case Err(e) => assert FailsAt(ts, pos, e); Err(e)
  }

  /** An opening parenthesis whose expression is not followed by `)` is an
      error at the token found there instead. */
  lemma PrimaryUnclosed(ts: seq<Token>, pos: nat, inner: Parsed)
    requires IsStream(ts) && pos < |ts|
    requires ts[pos].kind == Reserved && ts[pos].text == "("
    requires Expr(ts, pos + 1) == Ok(inner)
    requires !(ts[inner.next].kind == Reserved && ts[inner.next].text == ")")
    ensures Primary(ts, pos) == Err(NotExpected(")", ts[inner.next].pos))
  {
    assert Consume(ts, pos, "(").Some?;
    assert Expect(ts, inner.next, ")").Err?;
  }

  /** Where a primary is expected, a token that is neither `(` nor a number
      is an error at that token; so is it where a unary operand is expected,
      unless it is a sign. */
  lemma PrimaryNotANumber(ts: seq<Token>, pos: nat)
    requires IsStream(ts) && pos < |ts|
    requires !(ts[pos].kind == Reserved && ts[pos].text == "(") && ts[pos].kind != Number
    ensures Primary(ts, pos) == Err(NotANumber(ts[pos].pos))
    ensures Consume(ts, pos, "+").None? && Consume(ts, pos, "-").None? ==>
              Unary(ts, pos) == Err(NotANumber(ts[pos].pos))
  {
  }

  /** What `main` does with the tokens: one `expr()` from the first token.
      The final cursor is returned; whatever follows it is never looked at. */
  function Parse(ts: seq<Token>): (r: Result<Parsed>)
    requires IsStream(ts)
    ensures LevelResult(ts, 0, r, 4)
  {
    Expr(ts, 0)
  }
}
