/**
 The code generator of 9cc (`gen`) and the stack machine its output runs on.

 `gen` prints one line of x86-64 assembly per instruction; here it returns
 the instructions as a sequence of `Instr`, one constructor per line it
 prints.  `Exec` gives them a meaning on an abstract machine holding the
 stack and the registers the generated code touches (`rax`, `rdi`, `rdx`,
 and the flags left by `cmp`).  Registers hold unbounded integers: 64-bit
 wrap-around is not modelled.  `al` is the low byte of `rax`.

 The central theorem, `GenCorrect`, is that running `Gen(n)` pushes exactly
 one value, `Eval(n)`, and leaves the stack below it untouched; and that it
 traps exactly when `Eval(n)` divides by zero.
 */
module CodeGen {
  import opened Common
  import opened Ast

  /** The condition codes of `sete`, `setne`, `setl` and `setle`. */
  datatype Cond = E | NE | L | LE

  datatype Instr =
    | Push(k: int)       // push k
    | PopRdi             // pop rdi
    | PopRax             // pop rax
    | AddRaxRdi          // add rax, rdi
    | SubRaxRdi          // sub rax, rdi
    | ImulRaxRdi         // imul rax, rdi
    | Cqo                // cqo
    | IdivRdi            // idiv rdi
    | CmpRaxRdi          // cmp rax, rdi
    | SetAl(cond: Cond)  // sete / setne / setl / setle al
    | MovzbRaxAl         // movzb rax, al
    | PushRax            // push rax

  /** What `cmp a, b` records for a later `setcc`: its two operands. */
  datatype Flags = Flags(a: int, b: int)

  /** The stack grows to the right: the top is the last element. */
  datatype Machine = Machine(stack: seq<int>, rax: int, rdi: int, rdx: int, flags: Flags)

  /** Whether `setcc` with condition `c` sets `al` to 1 (signed comparisons). */
  predicate Holds(c: Cond, f: Flags) {
    match c
    case E => f.a == f.b
    case NE => f.a != f.b
    case L => f.a < f.b
    case LE => f.a <= f.b
  }

  /** `rdx` as `cqo` leaves it: the sign extension of `rax`. */
  function SignExtension(rax: int): int {
    if rax < 0 then -1 else 0
  }

  /** One instruction.  `None` is a fault: popping an empty stack, or an
      `idiv` that traps (divisor zero) or whose 128-bit dividend `rdx:rax`
      is not the sign extension of `rax` (outside what is modelled). */
  function Step(i: Instr, m: Machine): Option<Machine> {
    match i
    case Push(k) => Some(m.(stack := m.stack + [k]))
    case PopRdi =>
      if |m.stack| == 0 then None
      else Some(m.(stack := m.stack[..|m.stack| - 1], rdi := m.stack[|m.stack| - 1]))
    case PopRax =>
      if |m.stack| == 0 then None
      else Some(m.(stack := m.stack[..|m.stack| - 1], rax := m.stack[|m.stack| - 1]))
    case AddRaxRdi => Some(m.(rax := m.rax + m.rdi))
    case SubRaxRdi => Some(m.(rax := m.rax - m.rdi))
    case ImulRaxRdi => Some(m.(rax := m.rax * m.rdi))
    case Cqo => Some(m.(rdx := SignExtension(m.rax)))
    case IdivRdi =>
      if m.rdi == 0 || m.rdx != SignExtension(m.rax) then None
      else Some(m.(rax := TruncDiv(m.rax, m.rdi), rdx := TruncRem(m.rax, m.rdi)))
    case CmpRaxRdi => Some(m.(flags := Flags(m.rax, m.rdi)))
    case SetAl(c) => Some(m.(rax := m.rax - m.rax % 256 + Flag(Holds(c, m.flags))))
    case MovzbRaxAl => Some(m.(rax := m.rax % 256))
    case PushRax => Some(m.(stack := m.stack + [m.rax]))
  }

  /** Runs the instructions in order, stopping at the first fault. */
  function Exec(code: seq<Instr>, m: Machine): Option<Machine>
    decreases |code|
  {
    if |code| == 0 then Some(m)
    else
      match Step(code[0], m)
      case None => None
      case Some(m') => Exec(code[1..], m')
  }

  /** How many values an instruction leaves on the stack: one for a push,
      minus one for a pop, none otherwise. */
  function Effect(i: Instr): int {
    match i
    case Push(_) => 1
    case PushRax => 1
    case PopRdi => -1
    case PopRax => -1
    case _ => 0
  }

  /** The net number of values a piece of code pushes, counted from its text. */
  function StackEffect(code: seq<Instr>): int
    decreases |code|
  {
    if |code| == 0 then 0 else Effect(code[0]) + StackEffect(code[1..])
  }

  lemma {:induction false} StackEffectAppend(a: seq<Instr>, b: seq<Instr>)
    ensures StackEffect(a + b) == StackEffect(a) + StackEffect(b)
    decreases |a|
  {
    if |a| == 0 {
      assert a + b == b;
    } else {
      assert (a + b)[0] == a[0];
      assert (a + b)[1..] == a[1..] + b;
      StackEffectAppend(a[1..], b);
    }
  }

  /** The instructions after `pop rdi; pop rax` that combine the operands:
      they never push or pop, the comparisons are exactly the cases ending
      in `movzb`, and only division uses `idiv`. */
  function OpCode(op: BinOp): (code: seq<Instr>)
    ensures |code| > 0 && StackEffect(code) == 0
    ensures code[|code| - 1] == MovzbRaxAl <==> IsComparison(op)
    ensures IdivRdi in code <==> op == Div
  {
    match op
    case Add => [AddRaxRdi]
    case Sub => [SubRaxRdi]
    case Mul => [ImulRaxRdi]
    case Div => [Cqo, IdivRdi]
    case Eq => [CmpRaxRdi, SetAl(E), MovzbRaxAl]
    case Ne => [CmpRaxRdi, SetAl(NE), MovzbRaxAl]
    case Lt => [CmpRaxRdi, SetAl(L), MovzbRaxAl]
    case Le => [CmpRaxRdi, SetAl(LE), MovzbRaxAl]
  }

  /** `gen(node)`: post-order, left operand first.  Read as text, the code
      starts by pushing a literal and pushes exactly one value more than it
      pops; `GenCorrect` states what it computes. */
  function Gen(n: Node): (code: seq<Instr>)
    ensures |code| > 0 && code[0].Push?
    ensures StackEffect(code) == 1
  {
    match n
    case Num(v) =>
      assert StackEffect([Push(v)]) == 1 + StackEffect([]);
      [Push(v)]
    case Bin(op, l, r) =>
      var both := Gen(l) + Gen(r);
      var pops: seq<Instr> := [PopRdi, PopRax];
      StackEffectAppend(Gen(l), Gen(r));
      StackEffectAppend(both, pops);
      StackEffectAppend(both + pops, OpCode(op));
      StackEffectAppend(both + pops + OpCode(op), [PushRax]);
      assert StackEffect(pops) == -2 by {
        assert pops[1..] == [PopRax];
        assert [PopRax][1..] == [];
      }
      assert StackEffect([PushRax]) == 1 by {
        assert [PushRax][1..] == [];
      }
      Gen(l) + Gen(r) + [PopRdi, PopRax] + OpCode(op) + [PushRax]
  }

  /** Running two pieces of code one after the other. */
  lemma {:induction false} ExecAppend(a: seq<Instr>, b: seq<Instr>, m: Machine)
    ensures Exec(a + b, m) == match Exec(a, m) case None => None case Some(m') => Exec(b, m')
    decreases |a|
  {
    if |a| > 0 {
      assert (a + b)[0] == a[0];
      assert (a + b)[1..] == a[1..] + b;
      match Step(a[0], m)
      case None =>
      case Some(m1) => ExecAppend(a[1..], b, m1);
    } else {
      assert a + b == b;
    }
  }

  /** The combining instructions of `op` leave `Apply(op, rax, rdi)` in
      `rax` and do not touch the stack; they fault exactly when `Apply`
      has no value, a division by zero. */
  lemma OpCodeCorrect(op: BinOp, m: Machine)
    ensures Exec(OpCode(op), m).None? <==> Apply(op, m.rax, m.rdi).None?
    ensures Exec(OpCode(op), m).Some? ==>
              Exec(OpCode(op), m).value.rax == Apply(op, m.rax, m.rdi).value &&
              Exec(OpCode(op), m).value.stack == m.stack
  {
    match op
    case Add =>
      assert Exec([AddRaxRdi], m) == Some(m.(rax := m.rax + m.rdi));
    case Sub =>
      assert Exec([SubRaxRdi], m) == Some(m.(rax := m.rax - m.rdi));
    case Mul =>
      assert Exec([ImulRaxRdi], m) == Some(m.(rax := m.rax * m.rdi));
    case Div => DivCorrect(m);
    case Eq => CompareCorrect(E, m);
    case Ne => CompareCorrect(NE, m);
    case Lt => CompareCorrect(L, m);
    case Le => CompareCorrect(LE, m);
  }

  /** `cqo; idiv rdi`: `cqo` makes `rdx:rax` the sign extension of `rax`,
      so `idiv` traps only on a zero divisor and otherwise leaves the
      truncated quotient in `rax`. */
  lemma DivCorrect(m: Machine)
    ensures m.rdi == 0 ==> Exec([Cqo, IdivRdi], m) == None
    ensures m.rdi != 0 ==>
              Exec([Cqo, IdivRdi], m) == Some(m.(rax := TruncDiv(m.rax, m.rdi), rdx := TruncRem(m.rax, m.rdi)))
  {
    var m1 := m.(rdx := SignExtension(m.rax));
    assert Step(Cqo, m) == Some(m1);
    assert [Cqo, IdivRdi][1..] == [IdivRdi];
    if m.rdi != 0 {
      var m2 := m1.(rax := TruncDiv(m.rax, m.rdi), rdx := TruncRem(m.rax, m.rdi));
      assert Step(IdivRdi, m1) == Some(m2);
      assert Exec([IdivRdi], m1) == Some(m2);
    } else {
      assert Exec([IdivRdi], m1) == None;
    }
  }

  /** `cmp rax, rdi; setcc al; movzb rax, al` leaves 1 in `rax` if the
      condition holds of `rax` and `rdi`, else 0. */
  lemma CompareCorrect(c: Cond, m: Machine)
    ensures Exec([CmpRaxRdi, SetAl(c), MovzbRaxAl], m) ==
              Some(m.(flags := Flags(m.rax, m.rdi), rax := Flag(Holds(c, Flags(m.rax, m.rdi)))))
  {
    var m1 := m.(flags := Flags(m.rax, m.rdi));
    assert Step(CmpRaxRdi, m) == Some(m1);
    assert [CmpRaxRdi, SetAl(c), MovzbRaxAl][1..] == [SetAl(c), MovzbRaxAl];
    SetAlMovzb(c, m1);
  }

  /** `setcc al; movzb rax, al` leaves exactly 0 or 1 in `rax`, whatever
      `rax` held before. */
  lemma SetAlMovzb(c: Cond, m: Machine)
    ensures Exec([SetAl(c), MovzbRaxAl], m) == Some(m.(rax := Flag(Holds(c, m.flags))))
  {
    var b := Flag(Holds(c, m.flags));
    var m1 := m.(rax := m.rax - m.rax % 256 + b);
    assert Step(SetAl(c), m) == Some(m1);
    assert [SetAl(c), MovzbRaxAl][1..] == [MovzbRaxAl];
    assert Exec([SetAl(c), MovzbRaxAl], m) == Exec([MovzbRaxAl], m1);
    MovzbAfterSetAl(m, b);
  }

  /** `movzb rax, al` after `al` was set to `b` leaves `b` in `rax`. */
  lemma MovzbAfterSetAl(m: Machine, b: int)
    requires 0 <= b < 256
    ensures Exec([MovzbRaxAl], m.(rax := m.rax - m.rax % 256 + b)) == Some(m.(rax := b))
  {
    LowByteOf(m.rax, b);
  }

  /** Replacing the low byte of a register by `b` and reading it back. */
  lemma LowByteOf(x: int, b: int)
    requires 0 <= b < 256
    ensures (x - x % 256 + b) % 256 == b
  {
    var k := x / 256;
    assert x - x % 256 + b == 256 * k + b;
  }

  /** After `pop rdi; pop rax` with `x` then `y` on top of the stack, the
      combining instructions leave `Apply(op, x, y)` in `rax` (or trap on a
      division by zero); `push rax` then puts it on the stack. */
  lemma CombineCorrect(op: BinOp, s: seq<int>, x: int, y: int, m: Machine)
    requires m.stack == s + [x, y]
    ensures var out := Exec([PopRdi, PopRax] + OpCode(op) + [PushRax], m);
            match Apply(op, x, y)
            case None => out == None
            case Some(v) => out.Some? && out.value.stack == s + [v]
  {
    assert (s + [x, y])[..|s| + 1] == s + [x];
    assert (s + [x])[..|s|] == s;
    var m1 := m.(stack := s, rdi := y, rax := x);
    assert Exec([PopRdi, PopRax], m) == Some(m1);
    ExecAppend([PopRdi, PopRax], OpCode(op) + [PushRax], m);
    assert [PopRdi, PopRax] + OpCode(op) + [PushRax] == [PopRdi, PopRax] + (OpCode(op) + [PushRax]);
    ExecAppend(OpCode(op), [PushRax], m1);
    OpCodeCorrect(op, m1);
  }

  /** Running `Gen(n)` pushes the value of `n` and leaves the rest of the
      stack as it was; it faults exactly when evaluating `n` divides by
      zero. */
  lemma {:induction false} GenCorrect(n: Node, m: Machine)
    ensures Eval(n).None? ==> Exec(Gen(n), m) == None
    ensures Eval(n).Some? ==> Exec(Gen(n), m).Some? && Exec(Gen(n), m).value.stack == m.stack + [Eval(n).value]
  {
    match n
    case Num(v) =>
    case Bin(op, l, r) =>
      var tail := [PopRdi, PopRax] + OpCode(op) + [PushRax];
      assert Gen(n) == Gen(l) + (Gen(r) + tail);
      ExecAppend(Gen(l), Gen(r) + tail, m);
      GenCorrect(l, m);
      if Eval(l).Some? {
        var m1 := Exec(Gen(l), m).value;
        ExecAppend(Gen(r), tail, m1);
        GenCorrect(r, m1);
        if Eval(r).Some? {
          var m2 := Exec(Gen(r), m1).value;
          assert m2.stack == m.stack + [Eval(l).value, Eval(r).value];
          CombineCorrect(op, m.stack, Eval(l).value, Eval(r).value, m2);
        }
      }
  }
}
