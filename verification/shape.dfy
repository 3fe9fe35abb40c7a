/**
 The parser looks only at the shape of each token: its kind, a
 punctuator's text and a number's value.  Where a token starts in the
 input, and how a number was spelled, never reach it (the offset only
 travels into error reports).  So two token streams with the same shapes
 at every index parse to the same tree with the same cursor, or both
 fail, whatever blanks separated the tokens in the source.

 The lemmas follow the parser function by function, with the same
 termination measure, so each one's induction is the parser's own
 recursion.
 */
module ParseShape {
  import opened Common
  import opened Lexer
  import opened Ast
  import opened Parser
  import opened Precedence

  /** Two streams of the same length with tokens of the same shape at every
      index. */
  predicate Alike(ts: seq<Token>, us: seq<Token>) {
    |ts| == |us| && forall k :: 0 <= k < |ts| ==> SameShape(ts[k], us[k])
  }

  /** Both parses succeed with the same tree and cursor, or both fail. */
  predicate SameOutcome(a: Result<Parsed>, b: Result<Parsed>) {
    (a.Ok? <==> b.Ok?) && (a.Ok? ==> a.value == b.value)
  }

  /** The cursor primitives answer alike on alike streams. */
  lemma PrimitivesAlike(ts: seq<Token>, us: seq<Token>, pos: nat)
    requires Alike(ts, us) && pos < |ts|
    ensures forall op :: Consume(ts, pos, op) == Consume(us, pos, op)
    ensures ExpectNumber(ts, pos).Ok? <==> ExpectNumber(us, pos).Ok?
    ensures ExpectNumber(ts, pos).Ok? ==> ExpectNumber(ts, pos).value == ExpectNumber(us, pos).value
  {
    assert SameShape(ts[pos], us[pos]);
  }

  lemma ExprAlike(ts: seq<Token>, us: seq<Token>, pos: nat)
    requires IsStream(ts) && IsStream(us) && Alike(ts, us) && pos < |ts|
    ensures SameOutcome(Expr(ts, pos), Expr(us, pos))
    decreases |ts| - pos, 10
  {
    EqualityAlike(ts, us, pos);
  }

  lemma EqualityAlike(ts: seq<Token>, us: seq<Token>, pos: nat)
    requires IsStream(ts) && IsStream(us) && Alike(ts, us) && pos < |ts|
    ensures SameOutcome(Equality(ts, pos), Equality(us, pos))
    decreases |ts| - pos, 9
  {
    RelationalAlike(ts, us, pos);
    var first := Relational(ts, pos);
    if first.Ok? {
      EqualityRestAlike(ts, us, first.value.next, first.value.node);
    }
  }

  lemma EqualityRestAlike(ts: seq<Token>, us: seq<Token>, pos: nat, lhs: Node)
    requires IsStream(ts) && IsStream(us) && Alike(ts, us) && pos < |ts|
    ensures SameOutcome(EqualityRest(ts, pos, lhs), EqualityRest(us, pos, lhs))
    decreases |ts| - pos, 8
  {
    PrimitivesAlike(ts, us, pos);
    if Consume(ts, pos, "==").Some? || Consume(ts, pos, "!=").Some? {
      RelationalAlike(ts, us, pos + 1);
      var rhs := Relational(ts, pos + 1);
      if rhs.Ok? {
        var op := if Consume(ts, pos, "==").Some? then Eq else Ne;
        EqualityRestAlike(ts, us, rhs.value.next, Bin(op, lhs, rhs.value.node));
      }
    }
  }

  lemma RelationalAlike(ts: seq<Token>, us: seq<Token>, pos: nat)
    requires IsStream(ts) && IsStream(us) && Alike(ts, us) && pos < |ts|
    ensures SameOutcome(Relational(ts, pos), Relational(us, pos))
    decreases |ts| - pos, 7
  {
    AdditiveAlike(ts, us, pos);
    var first := Additive(ts, pos);
    if first.Ok? {
      RelationalRestAlike(ts, us, first.value.next, first.value.node);
    }
  }

  lemma RelationalRestAlike(ts: seq<Token>, us: seq<Token>, pos: nat, lhs: Node)
    requires IsStream(ts) && IsStream(us) && Alike(ts, us) && pos < |ts|
    ensures SameOutcome(RelationalRest(ts, pos, lhs), RelationalRest(us, pos, lhs))
    decreases |ts| - pos, 6
  {
    PrimitivesAlike(ts, us, pos);
    if || Consume(ts, pos, "<").Some? || Consume(ts, pos, "<=").Some?
       || Consume(ts, pos, ">").Some? || Consume(ts, pos, ">=").Some?
    {
      AdditiveAlike(ts, us, pos + 1);
      var rhs := Additive(ts, pos + 1);
      if rhs.Ok? {
        var r := rhs.value.node;
        var folded :=
          if Consume(ts, pos, "<").Some? then Bin(Lt, lhs, r)
          else if Consume(ts, pos, "<=").Some? then Bin(Le, lhs, r)
          else if Consume(ts, pos, ">").Some? then Bin(Lt, r, lhs)
          else Bin(Le, r, lhs);
        RelationalRestAlike(ts, us, rhs.value.next, folded);
      }
    }
  }

  lemma AdditiveAlike(ts: seq<Token>, us: seq<Token>, pos: nat)
    requires IsStream(ts) && IsStream(us) && Alike(ts, us) && pos < |ts|
    ensures SameOutcome(Additive(ts, pos), Additive(us, pos))
    decreases |ts| - pos, 5
  {
    MultiplicativeAlike(ts, us, pos);
    var first := Multiplicative(ts, pos);
    if first.Ok? {
      AdditiveRestAlike(ts, us, first.value.next, first.value.node);
    }
  }

  lemma AdditiveRestAlike(ts: seq<Token>, us: seq<Token>, pos: nat, lhs: Node)
    requires IsStream(ts) && IsStream(us) && Alike(ts, us) && pos < |ts|
    ensures SameOutcome(AdditiveRest(ts, pos, lhs), AdditiveRest(us, pos, lhs))
    decreases |ts| - pos, 4
  {
    PrimitivesAlike(ts, us, pos);
    if Consume(ts, pos, "+").Some? || Consume(ts, pos, "-").Some? {
      MultiplicativeAlike(ts, us, pos + 1);
      var rhs := Multiplicative(ts, pos + 1);
      if rhs.Ok? {
        var op := if Consume(ts, pos, "+").Some? then Add else Sub;
        AdditiveRestAlike(ts, us, rhs.value.next, Bin(op, lhs, rhs.value.node));
      }
    }
  }

  lemma MultiplicativeAlike(ts: seq<Token>, us: seq<Token>, pos: nat)
    requires IsStream(ts) && IsStream(us) && Alike(ts, us) && pos < |ts|
    ensures SameOutcome(Multiplicative(ts, pos), Multiplicative(us, pos))
    decreases |ts| - pos, 3
  {
    UnaryAlike(ts, us, pos);
    var first := Unary(ts, pos);
    if first.Ok? {
      MultiplicativeRestAlike(ts, us, first.value.next, first.value.node);
    }
  }

  lemma MultiplicativeRestAlike(ts: seq<Token>, us: seq<Token>, pos: nat, lhs: Node)
    requires IsStream(ts) && IsStream(us) && Alike(ts, us) && pos < |ts|
    ensures SameOutcome(MultiplicativeRest(ts, pos, lhs), MultiplicativeRest(us, pos, lhs))
    decreases |ts| - pos, 2
  {
    PrimitivesAlike(ts, us, pos);
    if Consume(ts, pos, "*").Some? || Consume(ts, pos, "/").Some? {
      UnaryAlike(ts, us, pos + 1);
      var rhs := Unary(ts, pos + 1);
      if rhs.Ok? {
        var op := if Consume(ts, pos, "*").Some? then Mul else Div;
        MultiplicativeRestAlike(ts, us, rhs.value.next, Bin(op, lhs, rhs.value.node));
      }
    }
  }

  lemma UnaryAlike(ts: seq<Token>, us: seq<Token>, pos: nat)
    requires IsStream(ts) && IsStream(us) && Alike(ts, us) && pos < |ts|
    ensures SameOutcome(Unary(ts, pos), Unary(us, pos))
    decreases |ts| - pos, 1
  {
    PrimitivesAlike(ts, us, pos);
    if Consume(ts, pos, "+").Some? || Consume(ts, pos, "-").Some? {
      UnaryAlike(ts, us, pos + 1);
    } else {
      PrimaryAlike(ts, us, pos);
    }
  }

  lemma PrimaryAlike(ts: seq<Token>, us: seq<Token>, pos: nat)
    requires IsStream(ts) && IsStream(us) && Alike(ts, us) && pos < |ts|
    ensures SameOutcome(Primary(ts, pos), Primary(us, pos))
    decreases |ts| - pos, 0
  {
    PrimitivesAlike(ts, us, pos);
    if Consume(ts, pos, "(").Some? {
      ExprAlike(ts, us, pos + 1);
      var inner := Expr(ts, pos + 1);
      if inner.Ok? {
        PrimitivesAlike(ts, us, inner.value.next);
      }
    }
  }

  /** `main`'s parse reads alike streams alike: the blanks between tokens,
      and where each token stood in the source, do not change the tree or
      the final cursor, and do not turn a failure into a success. */
  lemma ParseAlike(ts: seq<Token>, us: seq<Token>)
    requires IsStream(ts) && IsStream(us) && Alike(ts, us)
    ensures SameOutcome(Parse(ts), Parse(us))
  {
    ExprAlike(ts, us, 0);
  }
}
