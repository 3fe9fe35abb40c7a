/**
 The abstract syntax tree of 9cc (`NodeKind`, `Node`, `new_binary`,
 `new_node_num`) and the meaning of a tree.

 The C `Node` is a record with a kind, two child pointers and a value; the
 eight binary kinds always have both children and `ND_NUM` has none.  Here
 that invariant is the shape of the datatype: `Bin` carries its two children
 and `Num` its value, and the constructors play the part of `new_binary` and
 `new_node_num`.

 `Eval` is the reference semantics the generated code is proved against:
 64-bit x86 arithmetic read as unbounded integers, `idiv` truncating toward
 zero, and comparisons giving 0 or 1.
 */
module Ast {
  import opened Common

  /** The binary node kinds `ND_ADD` .. `ND_LE`; there is no greater-than kind. */
  datatype BinOp = Add | Sub | Mul | Div | Eq | Ne | Lt | Le

  datatype Node = Num(val: int) | Bin(op: BinOp, lhs: Node, rhs: Node)

  function Abs(a: int): nat {
    if a < 0 then -a else a
  }

  /** Euclidean division of naturals brackets the dividend. */
  lemma NatDivBounds(x: nat, y: nat)
    requires y > 0
    ensures 0 <= x / y
    ensures (x / y) * y <= x < (x / y + 1) * y
  {
    assert x == (x / y) * y + x % y;
    assert (x / y + 1) * y == (x / y) * y + y;
  }

  /** Signed division truncating toward zero, as `idiv` computes it
      (Dafny's own `/` is Euclidean). */
  function TruncDiv(a: int, b: int): (q: int)
    requires b != 0
    ensures Abs(q) * Abs(b) <= Abs(a) < (Abs(q) + 1) * Abs(b)
    ensures q != 0 ==> ((q < 0) <==> ((a < 0) != (b < 0)))
  {
    NatDivBounds(Abs(a), Abs(b));
    var m: nat := Abs(a) / Abs(b);
    if (a < 0) != (b < 0) then -(m as int) else m
  }

  /** The remainder `idiv` leaves in `rdx`: it has the sign of the dividend. */
  function TruncRem(a: int, b: int): (r: int)
    requires b != 0
    ensures a == TruncDiv(a, b) * b + r
    ensures Abs(r) < Abs(b)
    ensures r != 0 ==> ((r < 0) <==> (a < 0))
  {
    var q := TruncDiv(a, b);
    assert Abs(q * b) == Abs(q) * Abs(b);
    a - q * b
  }

  /** The value of a comparison as `setcc` + `movzb` produce it. */
  function Flag(b: bool): int {
    if b then 1 else 0
  }

  /** The value of a binary node from the values of its operands; `None` for
      a division by zero, where `idiv` traps. */
  function Apply(op: BinOp, a: int, b: int): Option<int> {
    match op
    case Add => Some(a + b)
    case Sub => Some(a - b)
    case Mul => Some(a * b)
    case Div => if b == 0 then None else Some(TruncDiv(a, b))
    case Eq => Some(Flag(a == b))
    case Ne => Some(Flag(a != b))
    case Lt => Some(Flag(a < b))
    case Le => Some(Flag(a <= b))
  }

  /** The value of an expression, evaluating the left operand first;
      `None` if some division divides by zero. */
  function Eval(n: Node): (r: Option<int>)
    ensures r.Some? && n.Bin? && IsComparison(n.op) ==> r.value == 0 || r.value == 1
  {
    match n
    case Num(v) => Some(v)
    case Bin(op, l, r) =>
      match Eval(l)
      case None => None
      case Some(a) =>
        match Eval(r)
        case None => None
        case Some(b) => Apply(op, a, b)
  }

  predicate IsComparison(op: BinOp) {
    op in {Eq, Ne, Lt, Le}
  }

  /** Every literal is non-negative: the trees the parser builds from tokens. */
  predicate NonNegative(n: Node) {
    match n
    case Num(v) => v >= 0
    case Bin(_, l, r) => NonNegative(l) && NonNegative(r)
  }
}
