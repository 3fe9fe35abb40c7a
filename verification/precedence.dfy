/**
 Precedence and associativity of the 9cc grammar, stated as a round trip.

 `Show(n, rank)` prints a tree as tokens with as few parentheses as the
 grammar needs when the tree stands where the parser expects an operand of
 the given rank: the left operand of an operator of rank k is printed at
 rank k (a chain of equal-rank operators folds to the left without
 parentheses) and the right operand at rank k - 1 (an equal-rank right
 operand is parenthesized).  Ranks: 0 unary/primary, 1 `*` `/`, 2 `+` `-`,
 3 `<` `<=`, 4 `==` `!=`.

 The theorem `ParseShown` says each precedence level of the parser reads
 such a printing back as the very same tree; for the whole parser this is
 `ParseRoundTrip`.  Since the printing leaves out every parenthesis the
 grammar does not need, the theorem pins down both the binding order of the
 levels and the left-associativity of each.
 */
module Precedence {
  import opened Common
  import opened Lexer
  import opened Ast
  import opened Parser

  function OpText(op: BinOp): string {
    match op
    case Add => "+"
    case Sub => "-"
    case Mul => "*"
    case Div => "/"
    case Eq => "=="
    case Ne => "!="
    case Lt => "<"
    case Le => "<="
  }

  /** The level of the grammar that reads `op`. */
  function Rank(op: BinOp): nat {
    match op
    case Mul | Div => 1
    case Add | Sub => 2
    case Lt | Le => 3
    case Eq | Ne => 4
  }

  /** The parser gives each operator's text the rank of its node. */
  lemma OpRankOfText(op: BinOp)
    ensures OpRank(OpText(op)) == Rank(op)
  {
  }

  function PrecOf(n: Node): nat {
    match n
    case Num(_) => 0
    case Bin(op, _, _) => Rank(op)
  }

  function Punct(text: string): Token {
    Token(Reserved, 0, 0, text)
  }

  function NumToken(v: nat): Token {
    Token(Number, v, 0, ShowNat(v))
  }

  /** The printing of `n` as an operand of rank `rank`. */
  function Show(n: Node, rank: nat): seq<Token>
    requires NonNegative(n)
  {
    match n
    case Num(v) => [NumToken(v)]
    case Bin(op, l, r) =>
      var body := Show(l, Rank(op)) + [Punct(OpText(op))] + Show(r, Rank(op) - 1);
      if Rank(op) <= rank then body else [Punct("(")] + body + [Punct(")")]
  }

  /** Two tokens the parser cannot tell apart: it looks at the kind, at the
      text of punctuators and at the value of numbers, never at offsets. */
  predicate SameShape(t: Token, u: Token) {
    t.kind == u.kind && t.val == u.val && (t.kind == Reserved ==> t.text == u.text)
  }

  /** The stream holds tokens shaped like `toks` from `pos` on. */
  predicate Matches(ts: seq<Token>, pos: nat, toks: seq<Token>) {
    pos + |toks| <= |ts| && forall k :: 0 <= k < |toks| ==> SameShape(ts[pos + k], toks[k])
  }

  lemma MatchesAt(ts: seq<Token>, pos: nat, toks: seq<Token>, k: nat)
    requires Matches(ts, pos, toks) && k < |toks|
    ensures SameShape(ts[pos + k], toks[k])
  {
  }

  lemma MatchesSplit(ts: seq<Token>, pos: nat, a: seq<Token>, b: seq<Token>)
    requires Matches(ts, pos, a + b)
    ensures Matches(ts, pos, a) && Matches(ts, pos + |a|, b)
  {
    forall k | 0 <= k < |a|
      ensures SameShape(ts[pos + k], a[k])
    {
      assert (a + b)[k] == a[k];
    }
    forall k | 0 <= k < |b|
      ensures SameShape(ts[pos + |a| + k], b[k])
    {
      assert (a + b)[|a| + k] == b[k];
    }
  }

  /** A match of `a`, one token `t`, then `b`, taken apart. */
  lemma MatchesAround(ts: seq<Token>, pos: nat, a: seq<Token>, t: Token, b: seq<Token>)
    requires Matches(ts, pos, a + [t] + b)
    ensures Matches(ts, pos, a) && SameShape(ts[pos + |a|], t)
    ensures Matches(ts, pos + |a| + 1, b)
  {
    MatchesSplit(ts, pos, a + [t], b);
    MatchesSplit(ts, pos, a, [t]);
    MatchesAt(ts, pos + |a|, [t], 0);
  }

  /** A match of `body` between the tokens `t` and `u`, taken apart. */
  lemma MatchesWithin(ts: seq<Token>, pos: nat, t: Token, body: seq<Token>, u: Token)
    requires Matches(ts, pos, [t] + body + [u])
    ensures SameShape(ts[pos], t) && Matches(ts, pos + 1, body)
    ensures SameShape(ts[pos + 1 + |body|], u)
  {
    MatchesAround(ts, pos, [t] + body, u, []);
    MatchesSplit(ts, pos, [t], body);
    MatchesAt(ts, pos, [t], 0);
  }

  /** The precedence level of rank `rank` as one function. */
  function Level(rank: nat, ts: seq<Token>, pos: nat): Result<Parsed>
    requires rank <= 4 && IsStream(ts) && pos < |ts|
  {
    if rank == 0 then Unary(ts, pos)
    else if rank == 1 then Multiplicative(ts, pos)
    else if rank == 2 then Additive(ts, pos)
    else if rank == 3 then Relational(ts, pos)
    else Equality(ts, pos)
  }

  /** The folding loop of rank `rank` as one function. */
  function Fold(rank: nat, ts: seq<Token>, pos: nat, lhs: Node): Result<Parsed>
    requires 1 <= rank <= 4 && IsStream(ts) && pos < |ts|
  {
    if rank == 1 then MultiplicativeRest(ts, pos, lhs)
    else if rank == 2 then AdditiveRest(ts, pos, lhs)
    else if rank == 3 then RelationalRest(ts, pos, lhs)
    else EqualityRest(ts, pos, lhs)
  }

  /** A level reads one operand of the next tighter level, then folds. */
  lemma LevelUnfold(rank: nat, ts: seq<Token>, pos: nat)
    requires 1 <= rank <= 4 && IsStream(ts) && pos < |ts|
    ensures Level(rank, ts, pos) ==
            (var first :- Level(rank - 1, ts, pos); Fold(rank, ts, first.next, first.node))
  {
  }

  /** The fold of rank `Rank(op)` reading `op` takes the next operand as the
      right child of `op`, with everything folded so far as the left child. */
  lemma FoldStep(op: BinOp, ts: seq<Token>, pos: nat, lhs: Node)
    requires IsStream(ts) && pos < |ts| && SameShape(ts[pos], Punct(OpText(op)))
    ensures Fold(Rank(op), ts, pos, lhs) ==
            (var rhs :- Level(Rank(op) - 1, ts, pos + 1); Fold(Rank(op), ts, rhs.next, Bin(op, lhs, rhs.node)))
  {
  }

  /** At an operator of rank k, a level of rank k folds and a tighter one stops. */
  lemma OperatorAt(op: BinOp, rank: nat, ts: seq<Token>, pos: nat)
    requires Rank(op) == rank && pos < |ts| && SameShape(ts[pos], Punct(OpText(op)))
    ensures StopsAt(ts, pos, rank - 1) && !StopsAt(ts, pos, rank)
  {
    OpRankOfText(op);
  }

  /** The fold of rank `Rank(op)` at the operator of `n == l op r`, when `r`
      is read up to `end`, goes on from `end` with `n` folded so far. */
  lemma FoldChain(n: Node, rank: nat, ts: seq<Token>, pos: nat, end: nat)
    requires n.Bin? && Rank(n.op) == rank && IsStream(ts) && pos + 1 < |ts|
    requires SameShape(ts[pos], Punct(OpText(n.op)))
    requires Level(rank - 1, ts, pos + 1) == Ok(Parsed(n.rhs, end))
    ensures end < |ts| && Fold(rank, ts, pos, n.lhs) == Fold(rank, ts, end, n)
  {
    FoldStep(n.op, ts, pos, n.lhs);
  }

  /** A fold stops where no operator of its level follows. */
  lemma FoldStop(rank: nat, ts: seq<Token>, pos: nat, lhs: Node)
    requires 1 <= rank <= 4 && IsStream(ts) && pos < |ts| && StopsAt(ts, pos, rank)
    ensures Fold(rank, ts, pos, lhs) == Ok(Parsed(lhs, pos))
  {
  }

  /** Printed at neighbouring ranks other than its own, a tree looks the same. */
  lemma ShowAcrossRanks(n: Node, rank: nat)
    requires NonNegative(n) && rank >= 1 && PrecOf(n) != rank
    ensures Show(n, rank) == Show(n, rank - 1)
  {
  }

  /** The printing of `l op r` at a rank that needs no parentheses, laid
      out in the stream: `l` from `pos`, the operator at `mid`, `r` up to `end`. */
  lemma MatchesBin(n: Node, k: nat, rank: nat, ts: seq<Token>, pos: nat, mid: nat, end: nat)
    requires NonNegative(n) && n.Bin? && Rank(n.op) == k <= rank
    requires Matches(ts, pos, Show(n, rank)) && end == pos + |Show(n, rank)|
    requires mid == pos + |Show(n.lhs, k)|
    ensures NonNegative(n.lhs) && NonNegative(n.rhs) && Matches(ts, pos, Show(n.lhs, k))
    ensures mid < |ts| && SameShape(ts[mid], Punct(OpText(n.op)))
    ensures Matches(ts, mid + 1, Show(n.rhs, k - 1)) && end == mid + 1 + |Show(n.rhs, k - 1)|
  {
    MatchesAround(ts, pos, Show(n.lhs, k), Punct(OpText(n.op)), Show(n.rhs, k - 1));
  }

  /** The printing of a binary tree as an operand of `unary()`, laid out in
      the stream: `(` at `pos`, the tree printed at the loosest rank, `)` at
      `end - 1`. */
  lemma MatchesParen(n: Node, ts: seq<Token>, pos: nat, end: nat)
    requires NonNegative(n) && n.Bin?
    requires Matches(ts, pos, Show(n, 0)) && end == pos + |Show(n, 0)|
    ensures SameShape(ts[pos], Punct("(")) && Matches(ts, pos + 1, Show(n, 4))
    ensures pos + 1 + |Show(n, 4)| == end - 1 && SameShape(ts[end - 1], Punct(")"))
  {
    MatchesWithin(ts, pos, Punct("("), Show(n, 4), Punct(")"));
  }

  /** Reading a printed operand at level `rank` and stopping before an
      operator of a tighter level leaves the level's fold to continue from
      `end`, just after it, with the operand as the tree folded so far. */
  lemma {:induction false} ParseOperand(rank: nat, n: Node, ts: seq<Token>, pos: nat, end: nat)
    requires 1 <= rank <= 4 && NonNegative(n) && IsStream(ts)
    requires Matches(ts, pos, Show(n, rank)) && end == pos + |Show(n, rank)| && end < |ts|
    requires StopsAt(ts, end, rank - 1)
    ensures Level(rank, ts, pos) == Fold(rank, ts, end, n)
    decreases n, if rank < PrecOf(n) then 1 else 0, rank, 2
  {
    if PrecOf(n) == rank {
      ParseChain(rank, n, ts, pos, end);
    } else {
      ShowAcrossRanks(n, rank);
      ParseShown(rank - 1, n, ts, pos, end);
      LevelUnfold(rank, ts, pos);
    }
  }

  /** The left-associative case of `ParseOperand`: `l op r` with `op` of the
      level's own rank is `l` read as an operand of the same level, then one
      step of the fold reading `op` and `r`. */
  lemma {:induction false} ParseChain(rank: nat, n: Node, ts: seq<Token>, pos: nat, end: nat)
    requires 1 <= rank <= 4 && NonNegative(n) && IsStream(ts) && PrecOf(n) == rank
    requires Matches(ts, pos, Show(n, rank)) && end == pos + |Show(n, rank)| && end < |ts|
    requires StopsAt(ts, end, rank - 1)
    ensures Level(rank, ts, pos) == Fold(rank, ts, end, n)
    decreases n, 0, rank, 1
  {
    var mid := pos + |Show(n.lhs, rank)|;
    MatchesBin(n, rank, rank, ts, pos, mid, end);
    OperatorAt(n.op, rank, ts, mid);
    ParseOperand(rank, n.lhs, ts, pos, mid);
    ParseChainStep(rank, n, ts, mid, end);
  }

  /** The step of `ParseChain` at the operator of `n`, at `mid`: the fold
      reads the printed right operand up to `end` and folds `n`. */
  lemma {:induction false} ParseChainStep(rank: nat, n: Node, ts: seq<Token>, mid: nat, end: nat)
    requires 1 <= rank <= 4 && NonNegative(n) && n.Bin? && Rank(n.op) == rank && IsStream(ts)
    requires mid < |ts| && SameShape(ts[mid], Punct(OpText(n.op)))
    requires Matches(ts, mid + 1, Show(n.rhs, rank - 1)) && end == mid + 1 + |Show(n.rhs, rank - 1)|
    requires end < |ts| && StopsAt(ts, end, rank - 1)
    ensures Fold(rank, ts, mid, n.lhs) == Fold(rank, ts, end, n)
    decreases n, 0, rank, 0
  {
    ParseShown(rank - 1, n.rhs, ts, mid + 1, end);
    FoldChain(n, rank, ts, mid, end);
  }

  /** Each level of the parser reads a printed tree back as that tree,
      provided the printing is followed, at `end`, by a token that is not an
      operator the level would fold. */
  lemma {:induction false} ParseShown(rank: nat, n: Node, ts: seq<Token>, pos: nat, end: nat)
    requires rank <= 4 && NonNegative(n) && IsStream(ts)
    requires Matches(ts, pos, Show(n, rank)) && end == pos + |Show(n, rank)| && end < |ts|
    requires StopsAt(ts, end, rank)
    ensures Level(rank, ts, pos) == Ok(Parsed(n, end))
    decreases n, if rank < PrecOf(n) then 1 else 0, rank, 3
  {
    if rank >= 1 {
      ParseOperand(rank, n, ts, pos, end);
      FoldStop(rank, ts, end, n);
    } else if n.Num? {
      MatchesAt(ts, pos, Show(n, rank), 0);
      assert Primary(ts, pos) == Ok(Parsed(n, pos + 1));
    } else {
      ParseParenthesized(n, ts, pos, end);
    }
  }

  /** A tree printed in parentheses is read back by `primary()`. */
  lemma {:induction false} ParseParenthesized(n: Node, ts: seq<Token>, pos: nat, end: nat)
    requires NonNegative(n) && IsStream(ts) && n.Bin?
    requires Matches(ts, pos, Show(n, 0)) && end == pos + |Show(n, 0)| && end < |ts|
    ensures Unary(ts, pos) == Ok(Parsed(n, end))
    decreases n, 1, 0, 1
  {
    MatchesParen(n, ts, pos, end);
    ParseShown(4, n, ts, pos + 1, end - 1);
    PrimaryParenthesized(n, ts, pos, end - 1);
  }

  /** `primary()` on `(`, an expression read up to `close`, and `)`. */
  lemma PrimaryParenthesized(n: Node, ts: seq<Token>, pos: nat, close: nat)
    requires IsStream(ts) && pos < close < |ts| - 1
    requires SameShape(ts[pos], Punct("(")) && SameShape(ts[close], Punct(")"))
    requires Expr(ts, pos + 1) == Ok(Parsed(n, close))
    ensures Unary(ts, pos) == Ok(Parsed(n, close + 1))
  {
    assert Expect(ts, close, ")") == Ok(close + 1);
    assert Primary(ts, pos) == Ok(Parsed(n, close + 1));
  }

  /** `main`'s parse of a printed expression gives back the tree, whatever
      follows it as long as it is not a binary operator: trailing tokens are
      not rejected. */
  lemma ParseRoundTrip(n: Node, ts: seq<Token>)
    requires NonNegative(n) && IsStream(ts)
    requires Matches(ts, 0, Show(n, 4)) && |Show(n, 4)| < |ts|
    requires StopsAt(ts, |Show(n, 4)|, 4)
    ensures Parse(ts) == Ok(Parsed(n, |Show(n, 4)|))
  {
    ParseShown(4, n, ts, 0, |Show(n, 4)|);
  }

  /** `x - y - z` parses as `(x - y) - z`: the additive loop folds to the left. */
  lemma SubtractionFoldsLeft(x: nat, y: nat, z: nat, ts: seq<Token>)
    requires IsStream(ts) && 5 < |ts| && StopsAt(ts, 5, 4)
    requires Matches(ts, 0, [NumToken(x), Punct("-"), NumToken(y), Punct("-"), NumToken(z)])
    ensures Parse(ts) == Ok(Parsed(Bin(Sub, Bin(Sub, Num(x), Num(y)), Num(z)), 5))
  {
    var n := Bin(Sub, Bin(Sub, Num(x), Num(y)), Num(z));
    assert NonNegative(Num(x)) && NonNegative(Num(y)) && NonNegative(Num(z));
    assert NonNegative(n.lhs);
    assert NonNegative(n);
    assert Show(n.lhs, 2) == [NumToken(x), Punct("-"), NumToken(y)];
    assert Show(n, 4) == [NumToken(x), Punct("-"), NumToken(y), Punct("-"), NumToken(z)];
    ParseRoundTrip(n, ts);
  }

  /** `x + y * z` parses as `x + (y * z)`: `mul` binds tighter than `add`. */
  lemma ProductBindsTighter(x: nat, y: nat, z: nat, ts: seq<Token>)
    requires IsStream(ts) && 5 < |ts| && StopsAt(ts, 5, 4)
    requires Matches(ts, 0, [NumToken(x), Punct("+"), NumToken(y), Punct("*"), NumToken(z)])
    ensures Parse(ts) == Ok(Parsed(Bin(Add, Num(x), Bin(Mul, Num(y), Num(z))), 5))
  {
    var n := Bin(Add, Num(x), Bin(Mul, Num(y), Num(z)));
    assert NonNegative(Num(x)) && NonNegative(Num(y)) && NonNegative(Num(z));
    assert NonNegative(n.rhs);
    assert NonNegative(n);
    assert Show(n.rhs, 1) == [NumToken(y), Punct("*"), NumToken(z)];
    assert Show(n, 4) == [NumToken(x), Punct("+"), NumToken(y), Punct("*"), NumToken(z)];
    ParseRoundTrip(n, ts);
  }

  /** The text of the greater-than form `strict` picks. */
  function GreaterText(strict: bool): string {
    if strict then ">" else ">="
  }

  /** An additive operand printed just before `>` or `>=` is read whole. */
  lemma AdditiveBeforeGreater(a: Node, strict: bool, ts: seq<Token>)
    requires NonNegative(a) && IsStream(ts)
    requires Matches(ts, 0, Show(a, 2) + [Punct(GreaterText(strict))])
    ensures Additive(ts, 0) == Ok(Parsed(a, |Show(a, 2)|))
  {
    MatchesSplit(ts, 0, Show(a, 2), [Punct(GreaterText(strict))]);
    MatchesAt(ts, |Show(a, 2)|, [Punct(GreaterText(strict))], 0);
    ParseShown(2, a, ts, 0, |Show(a, 2)|);
  }

  /** An additive operand followed by no operator of ranks 1 to 3 is read whole. */
  lemma AdditiveBeforeStop(b: Node, ts: seq<Token>, q: nat)
    requires NonNegative(b) && IsStream(ts)
    requires Matches(ts, q, Show(b, 2)) && q + |Show(b, 2)| < |ts|
    requires StopsAt(ts, q + |Show(b, 2)|, 3)
    ensures Additive(ts, q) == Ok(Parsed(b, q + |Show(b, 2)|))
  {
    ParseShown(2, b, ts, q, q + |Show(b, 2)|);
  }

  /** The relational level reads `a > b` as `b < a` and `a >= b` as `b <= a`:
      it swaps the operands of the greater-than forms.  `mid` is the offset
      of the operator and `end` the offset after `b`. */
  lemma RelationalGreater(a: Node, b: Node, strict: bool, ts: seq<Token>, mid: nat, end: nat)
    requires NonNegative(a) && NonNegative(b) && IsStream(ts)
    requires mid == |Show(a, 2)| && end == mid + 1 + |Show(b, 2)| && end < |ts|
    requires Matches(ts, 0, Show(a, 2) + [Punct(GreaterText(strict))])
    requires Matches(ts, mid + 1, Show(b, 2))
    requires StopsAt(ts, end, 3)
    ensures Relational(ts, 0) == Ok(Parsed(Bin(if strict then Lt else Le, b, a), end))
  {
    GreaterOperands(a, b, strict, ts, mid, end);
    RelationalSwap(a, b, strict, ts, mid, end);
  }

  /** The layout `a > b` read at the additive level: both operands are read
      whole, and the operator sits between them. */
  lemma GreaterOperands(a: Node, b: Node, strict: bool, ts: seq<Token>, mid: nat, end: nat)
    requires NonNegative(a) && NonNegative(b) && IsStream(ts)
    requires mid == |Show(a, 2)| && end == mid + 1 + |Show(b, 2)| && end < |ts|
    requires Matches(ts, 0, Show(a, 2) + [Punct(GreaterText(strict))])
    requires Matches(ts, mid + 1, Show(b, 2))
    requires StopsAt(ts, end, 3)
    ensures Additive(ts, 0) == Ok(Parsed(a, mid))
    ensures ts[mid].kind == Reserved && ts[mid].text == GreaterText(strict)
    ensures Additive(ts, mid + 1) == Ok(Parsed(b, end))
  {
    AdditiveBeforeStop(b, ts, mid + 1);
    AdditiveBeforeGreater(a, strict, ts);
    MatchesAt(ts, 0, Show(a, 2) + [Punct(GreaterText(strict))], mid);
  }

  /** The same swap stated on the additive parses themselves: operand `a`
      ends at the operator at `mid`, operand `b` follows it and ends at `end`. */
  lemma RelationalSwap(a: Node, b: Node, strict: bool, ts: seq<Token>, mid: nat, end: nat)
    requires IsStream(ts) && mid < end < |ts|
    requires Additive(ts, 0) == Ok(Parsed(a, mid))
    requires ts[mid].kind == Reserved && ts[mid].text == GreaterText(strict)
    requires Additive(ts, mid + 1) == Ok(Parsed(b, end))
    requires StopsAt(ts, end, 3)
    ensures Relational(ts, 0) == Ok(Parsed(Bin(if strict then Lt else Le, b, a), end))
  {
    GreaterStep(strict, ts, mid, a);
    FoldStop(3, ts, end, Bin(if strict then Lt else Le, b, a));
  }

  /** One step of the relational fold at `>` or `>=`: the next additive
      operand becomes the LEFT child and the tree folded so far the right. */
  lemma GreaterStep(strict: bool, ts: seq<Token>, pos: nat, lhs: Node)
    requires IsStream(ts) && pos < |ts|
    requires ts[pos].kind == Reserved && ts[pos].text == GreaterText(strict)
    ensures RelationalRest(ts, pos, lhs) ==
            (var rhs :- Additive(ts, pos + 1); RelationalRest(ts, rhs.next, Bin(if strict then Lt else Le, rhs.node, lhs)))
  {
    assert Consume(ts, pos, "<").None? && Consume(ts, pos, "<=").None?;
    if !strict {
      assert Consume(ts, pos, ">").None?;
    }
  }

  /** A whole input `a > b` (`a >= b`) parses as `b < a` (`b <= a`), whose
      value is that of `a > b` (`a >= b`); `mid` is the offset of the
      operator and `end` the offset after `b`. */
  lemma ParseGreater(a: Node, b: Node, strict: bool, ts: seq<Token>, mid: nat, end: nat)
    requires NonNegative(a) && NonNegative(b) && IsStream(ts)
    requires mid == |Show(a, 2)| && end == mid + 1 + |Show(b, 2)| && end < |ts|
    requires Matches(ts, 0, Show(a, 2) + [Punct(GreaterText(strict))])
    requires Matches(ts, mid + 1, Show(b, 2))
    requires StopsAt(ts, end, 4)
    ensures Parse(ts) == Ok(Parsed(Bin(if strict then Lt else Le, b, a), end))
    ensures Eval(Parse(ts).value.node) ==
            if Eval(a).None? || Eval(b).None? then None
            else Some(Flag(if strict then Eval(a).value > Eval(b).value else Eval(a).value >= Eval(b).value))
  {
    RelationalGreater(a, b, strict, ts, mid, end);
    EqualityAfter(ts, 0, Bin(if strict then Lt else Le, b, a), end);
    GreaterMeaning(a, b, strict);
  }

  /** A relational operand followed by no equality operator is the whole
      equality level. */
  lemma EqualityAfter(ts: seq<Token>, pos: nat, n: Node, end: nat)
    requires IsStream(ts) && pos <= end < |ts|
    requires Relational(ts, pos) == Ok(Parsed(n, end))
    requires StopsAt(ts, end, 4)
    ensures Equality(ts, pos) == Ok(Parsed(n, end))
  {
    FoldStop(4, ts, end, n);
  }

  /** The swapped tree evaluates its right operand first, but its value is
      still that of `a > b` (`a >= b`), and it faults exactly when an
      operand divides by zero. */
  lemma GreaterMeaning(a: Node, b: Node, strict: bool)
    ensures Eval(Bin(if strict then Lt else Le, b, a)) ==
            if Eval(a).None? || Eval(b).None? then None
            else Some(Flag(if strict then Eval(a).value > Eval(b).value else Eval(a).value >= Eval(b).value))
  {
    if Eval(a).Some? && Eval(b).Some? {
      var x, y := Eval(a).value, Eval(b).value;
      if strict {
        assert Eval(Bin(Lt, b, a)) == Some(Flag(y < x));
      } else {
        assert Eval(Bin(Le, b, a)) == Some(Flag(y <= x));
      }
    }
  }

  /** A run of prefix signs, `true` for `-` and `false` for `+`. */
  function SignTokens(signs: seq<bool>): (toks: seq<Token>)
    ensures |toks| == |signs|
  {
    if |signs| == 0 then [] else [Punct(if signs[0] then "-" else "+")] + SignTokens(signs[1..])
  }

  /** The tree `unary()` builds for a run of signs before an operand. */
  function ApplySigns(signs: seq<bool>, n: Node): Node {
    if |signs| == 0 then n
    else if signs[0] then Bin(Sub, Num(0), ApplySigns(signs[1..], n))
    else ApplySigns(signs[1..], n)
  }

  function Minuses(signs: seq<bool>): nat {
    if |signs| == 0 then 0 else (if signs[0] then 1 else 0) + Minuses(signs[1..])
  }

  /** `unary()` reads any run of `+` and `-` before an operand: each `+` is
      dropped and each `-` wraps what follows it as `0 - x`. */
  lemma {:induction false} ParseSigns(signs: seq<bool>, n: Node, ts: seq<Token>, pos: nat, end: nat)
    requires IsStream(ts) && Matches(ts, pos, SignTokens(signs)) && pos + |signs| < |ts|
    requires Unary(ts, pos + |signs|) == Ok(Parsed(n, end))
    ensures Unary(ts, pos) == Ok(Parsed(ApplySigns(signs, n), end))
    decreases |signs|
  {
    if |signs| > 0 {
      var sign := Punct(if signs[0] then "-" else "+");
      assert SignTokens(signs) == [sign] + SignTokens(signs[1..]);
      MatchesSplit(ts, pos, [sign], SignTokens(signs[1..]));
      MatchesAt(ts, pos, [sign], 0);
      ParseSigns(signs[1..], n, ts, pos + 1, end);
      if signs[0] {
        assert Consume(ts, pos, "+").None? && Consume(ts, pos, "-").Some?;
      } else {
        assert Consume(ts, pos, "+").Some?;
      }
    }
  }

  /** A printed operand after a run of signs. */
  lemma SignedShown(signs: seq<bool>, n: Node, ts: seq<Token>, pos: nat, end: nat)
    requires NonNegative(n) && IsStream(ts)
    requires Matches(ts, pos, SignTokens(signs) + Show(n, 0))
    requires end == pos + |signs| + |Show(n, 0)| && end < |ts|
    ensures Unary(ts, pos) == Ok(Parsed(ApplySigns(signs, n), end))
  {
    MatchesSplit(ts, pos, SignTokens(signs), Show(n, 0));
    UnaryShown(n, ts, pos + |signs|, end);
    ParseSigns(signs, n, ts, pos, end);
  }

  /** `unary()` reads a tree printed as an operand. */
  lemma UnaryShown(n: Node, ts: seq<Token>, pos: nat, end: nat)
    requires NonNegative(n) && IsStream(ts)
    requires Matches(ts, pos, Show(n, 0)) && end == pos + |Show(n, 0)| && end < |ts|
    ensures Unary(ts, pos) == Ok(Parsed(n, end))
  {
    ParseShown(0, n, ts, pos, end);
  }

  /** Signs multiply the value by -1 once per `-`. */
  lemma {:induction false} EvalSigns(signs: seq<bool>, n: Node)
    ensures Eval(ApplySigns(signs, n)) ==
            if Eval(n).None? then None
            else if Minuses(signs) % 2 == 0 then Eval(n) else Some(-Eval(n).value)
    decreases |signs|
  {
    if |signs| > 0 {
      EvalSigns(signs[1..], n);
    }
  }
}
