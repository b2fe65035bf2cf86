/** What the emitted code computes. `Eval` is the 64-bit meaning of an expression:
    two's complement wrap-around, signed division rounding toward zero, comparisons
    giving 0 or 1. The code `ExprCode` emits leaves that value in `rax` and the stack
    as it found it, or faults exactly when the meaning is undefined (a division by
    zero or an overflowing quotient). */
module Correctness {
  import opened Wrappers
  import opened Ast
  import opened Asm
  import opened CodeGen
  import opened Machine
  import opened Text
  import V = Values

  /** The meaning of an operator on two 64-bit operands. */
  function Apply(op: BinOp, a: Word, b: Word): Option<Word>
  {
    match op
    case Add => Some(Wrap(a + b))
    case Sub => Some(Wrap(a - b))
    case Mul => Some(Wrap(Signed(a) * Signed(b)))
    case Div =>
      if b == 0 then None
      else
        var q := TruncDiv(Signed(a), Signed(b));
        if q < -Half || q >= Half then None else Some(Wrap(q))
    case _ => Some(BoolInt(Condition(SetName(op), Signed(a), Signed(b))))
  }

  /** The meaning of an expression whose names are bound to numbers or booleans. */
  function Eval(e: Expr, consts: Constants): Option<Word>
  {
    match e
    case Number(n) => Some(Wrap(n))
    case Boolean(b) => Some(BoolInt(b))
    case Variable(name) =>
      if name in consts && consts[name].Number? then Some(Wrap(consts[name].n))
      else if name in consts && consts[name].Boolean? then Some(BoolInt(consts[name].b))
      else None
    case BinaryOp(op, l, r) =>
      var a, b := Eval(l, consts), Eval(r, consts);
      if a.None? || b.None? then None else Apply(op, a.value, b.value)
    case _ => None
  }

  /** Every quotient in `e` has operands that are non-negative as signed values. */
  predicate NonNegativeDivisions(e: Expr, consts: Constants)
  {
    match e
    case BinaryOp(op, l, r) =>
      NonNegativeDivisions(l, consts) && NonNegativeDivisions(r, consts) &&
      (op == Div && Eval(l, consts).Some? && Eval(r, consts).Some? ==>
        Signed(Eval(l, consts).value) >= 0 && Signed(Eval(r, consts).value) >= 0)
    case _ => true
  }

  /** A running machine with `a` in `rax` and `b` in `rbx`. */
  predicate Operands(st: State, a: Word, b: Word)
  {
    st.status == Running && st.rax == W(a) && st.rbx == W(b)
  }

  lemma LowByte(a: Word, c: int)
    requires c == 0 || c == 1
    ensures 0 <= a - a % 256 + c < Modulus && (a - a % 256 + c) % 256 == c
  {
    assert a - a % 256 + c == 256 * (a / 256) + c;
  }

  lemma RunOne(data: seq<DataLine>, l: Line, st: State)
    requires st.status == Running
    ensures Run(data, [l], st) == Exec(data, st, l)
  {
    assert [l][1..] == [];
  }

  lemma RunCons(data: seq<DataLine>, l: Line, rest: seq<Line>, st: State)
    ensures Run(data, [l] + rest, st) == Run(data, rest, Run(data, [l], st))
  {
    RunAppend(data, [l], rest, st);
  }

  lemma ExecCmp(data: seq<DataLine>, st: State, a: Word, b: Word)
    requires Operands(st, a, b)
    ensures Exec(data, st, Op2("cmp", "rax", "rbx")) == st.(cmpLeft := Signed(a), cmpRight := Signed(b))
  {
  }

  lemma ExecSet(data: seq<DataLine>, st: State, name: string, a: Word)
    requires IsSet(name) && st.rax == W(a)
    ensures Exec(data, st, Ins(name, [Reg("al")])) ==
      st.(rax := W(a - a % 256 + (if Condition(name, st.cmpLeft, st.cmpRight) then 1 else 0)))
  {
  }

  lemma ExecMovzx(data: seq<DataLine>, st: State, a: Word)
    requires st.rax == W(a)
    ensures Exec(data, st, Op2("movzx", "rax", "al")) == st.(rax := W(a % 256))
  {
  }

  lemma ExecArith(data: seq<DataLine>, st: State, op: string)
    requires op == "add" || op == "sub" || op == "imul"
    ensures Exec(data, st, Op2(op, "rax", "rbx")) == Arith(st, op)
  {
  }

  lemma ExecXorRdx(data: seq<DataLine>, st: State)
    ensures Exec(data, st, Op2("xor", "rdx", "rdx")) == st.(rdx := W(0))
  {
  }

  lemma ExecDiv(data: seq<DataLine>, st: State)
    ensures Exec(data, st, Ins("div", [Reg("rbx")])) == DivUnsigned(st)
  {
  }

  lemma ExecCqo(data: seq<DataLine>, st: State, a: Word)
    requires st.rax == W(a)
    ensures Exec(data, st, Ins("cqo", [])) == st.(rdx := W(if a >= Half then Modulus - 1 else 0))
  {
  }

  lemma ExecIdiv(data: seq<DataLine>, st: State)
    ensures Exec(data, st, Ins("idiv", [Reg("rbx")])) == DivSigned(st)
  {
  }

  lemma ExecPush(data: seq<DataLine>, st: State)
    ensures Exec(data, st, Push("rax")) == st.(stack := st.stack + [st.rax])
  {
  }

  lemma ExecPop(data: seq<DataLine>, st: State)
    requires st.stack != []
    ensures Exec(data, st, Pop("rbx")) ==
      st.(rbx := st.stack[|st.stack| - 1], stack := st.stack[..|st.stack| - 1])
  {
  }

  lemma ExecMov(data: seq<DataLine>, st: State, r: string, n: int)
    requires IsGpr(r)
    ensures Exec(data, st, Mov(r, n)) == Set(st, r, W(Wrap(n)))
  {
  }

  /** A comparison leaves 0 or 1 in `rax`. */
  lemma CompareStep(data: seq<DataLine>, op: BinOp, div: DivLowering, st: State, a: Word, b: Word)
    requires op !in {Add, Sub, Mul, Div} && Operands(st, a, b)
    ensures var r := Run(data, OpCode(op, div), st);
      r.status == Running && r.rax == W(Apply(op, a, b).value) && r.stack == st.stack && r.out == st.out
  {
    var name := SetName(op);
    assert IsSet(name);
    assert OpCode(op, div) == [Op2("cmp", "rax", "rbx"), Ins(name, [Reg("al")]), Op2("movzx", "rax", "al")];
    assert Apply(op, a, b) == Some(BoolInt(Condition(name, Signed(a), Signed(b))));
    CompareRun(data, name, st, a, b);
  }

  /** `cmp rax, rbx; setX al; movzx rax, al` leaves the flag `setX` tests in `rax`. */
  lemma CompareRun(data: seq<DataLine>, name: string, st: State, a: Word, b: Word)
    requires IsSet(name) && Operands(st, a, b)
    ensures var r := Run(data, [Op2("cmp", "rax", "rbx"), Ins(name, [Reg("al")]), Op2("movzx", "rax", "al")], st);
      r.status == Running && r.rax == W(BoolInt(Condition(name, Signed(a), Signed(b)))) &&
      r.stack == st.stack && r.out == st.out
  {
    var c := BoolInt(Condition(name, Signed(a), Signed(b)));
    LowByte(a, c);
    var m: Word := a - a % 256 + c;
    assert [Op2("cmp", "rax", "rbx"), Ins(name, [Reg("al")]), Op2("movzx", "rax", "al")] ==
      [Op2("cmp", "rax", "rbx")] + ([Ins(name, [Reg("al")])] + [Op2("movzx", "rax", "al")]);
    RunCons(data, Op2("cmp", "rax", "rbx"), [Ins(name, [Reg("al")])] + [Op2("movzx", "rax", "al")], st);
    RunOne(data, Op2("cmp", "rax", "rbx"), st);
    ExecCmp(data, st, a, b);
    var s1 := st.(cmpLeft := Signed(a), cmpRight := Signed(b));
    RunCons(data, Ins(name, [Reg("al")]), [Op2("movzx", "rax", "al")], s1);
    RunOne(data, Ins(name, [Reg("al")]), s1);
    ExecSet(data, s1, name, a);
    var s2 := s1.(rax := W(m));
    RunOne(data, Op2("movzx", "rax", "al"), s2);
    ExecMovzx(data, s2, m);
    assert Run(data, [Op2("cmp", "rax", "rbx"), Ins(name, [Reg("al")]), Op2("movzx", "rax", "al")], st) ==
      s2.(rax := W(c));
  }

  /** On non-negative operands `div` and the truncating signed quotient agree. */
  lemma UnsignedQuotient(a: Word, b: Word)
    requires b != 0 && Signed(a) >= 0 && Signed(b) >= 0
    ensures 0 * Modulus + a == a
    ensures a / b < Half && TruncDiv(Signed(a), Signed(b)) == a / b && Wrap(a / b) == a / b
  {
    assert Signed(a) == a && Signed(b) == b;
    QuotientBound(a, b);
  }

  lemma QuotientBound(a: nat, b: nat)
    requires b >= 1
    ensures a / b <= a
  {
    var q := a / b;
    assert a == b * q + a % b && q >= 0;
    MulAtLeast(b, q);
  }

  lemma {:induction false} MulAtLeast(b: nat, q: nat)
    requires b >= 1
    ensures b * q >= q
  {
    if b > 1 {
      MulAtLeast(b - 1, q);
      assert b * q == (b - 1) * q + q;
    }
  }

  /** `add`, `sub`, `imul` and the signed division compute `Apply`. */
  lemma OpStepSigned(data: seq<DataLine>, op: BinOp, st: State, a: Word, b: Word)
    requires op in {Add, Sub, Mul, Div} && Operands(st, a, b)
    ensures var r := Run(data, OpCode(op, SignedDiv), st);
      (Apply(op, a, b).Some? ==>
        (r.status == Running && r.rax == W(Apply(op, a, b).value) && r.stack == st.stack && r.out == st.out)) &&
      (Apply(op, a, b).None? ==> r.status == Fault)
  {
    if op == Div {
      assert OpCode(op, SignedDiv) == [Ins("cqo", [])] + [Ins("idiv", [Reg("rbx")])];
      RunCons(data, Ins("cqo", []), [Ins("idiv", [Reg("rbx")])], st);
      RunOne(data, Ins("cqo", []), st);
      ExecCqo(data, st, a);
      var s1 := st.(rdx := W(if a >= Half then Modulus - 1 else 0));
      assert Signed(s1.rdx.w) * Modulus + a == Signed(a);
      RunOne(data, Ins("idiv", [Reg("rbx")]), s1);
      ExecIdiv(data, s1);
    } else {
      var name := if op == Add then "add" else if op == Sub then "sub" else "imul";
      assert OpCode(op, SignedDiv) == [Op2(name, "rax", "rbx")];
      RunOne(data, Op2(name, "rax", "rbx"), st);
      ExecArith(data, st, name);
    }
  }

  /** The unsigned division agrees with `Apply` when both operands are non-negative. */
  lemma OpStepUnsigned(data: seq<DataLine>, op: BinOp, st: State, a: Word, b: Word)
    requires op in {Add, Sub, Mul, Div} && Operands(st, a, b)
    requires op == Div ==> Signed(a) >= 0 && Signed(b) >= 0
    ensures var r := Run(data, OpCode(op, UnsignedDiv), st);
      (Apply(op, a, b).Some? ==>
        (r.status == Running && r.rax == W(Apply(op, a, b).value) && r.stack == st.stack && r.out == st.out)) &&
      (Apply(op, a, b).None? ==> r.status == Fault)
  {
    if op == Div {
      assert OpCode(op, UnsignedDiv) == [Op2("xor", "rdx", "rdx")] + [Ins("div", [Reg("rbx")])];
      RunCons(data, Op2("xor", "rdx", "rdx"), [Ins("div", [Reg("rbx")])], st);
      RunOne(data, Op2("xor", "rdx", "rdx"), st);
      ExecXorRdx(data, st);
      var s1 := st.(rdx := W(0));
      RunOne(data, Ins("div", [Reg("rbx")]), s1);
      ExecDiv(data, s1);
      if b != 0 {
        UnsignedQuotient(a, b);
      }
    } else {
      var name := if op == Add then "add" else if op == Sub then "sub" else "imul";
      assert OpCode(op, UnsignedDiv) == [Op2(name, "rax", "rbx")];
      RunOne(data, Op2(name, "rax", "rbx"), st);
      ExecArith(data, st, name);
    }
  }

  /** What the code of `e` does, given how its operator steps behave. */
  /** `r` is where `st` gets to when it computes `v`: the value in `rax` with the stack and the
      output as they were, or a fault when there is no value. */
  predicate Yields(v: Option<Word>, st: State, r: State)
  {
    match v
    case Some(w) => r.status == Running && r.rax == W(w) && r.stack == st.stack && r.out == st.out
    case None => r.status == Fault
  }

  predicate Computes(e: Expr, consts: Constants, st: State, r: State)
  {
    Yields(Eval(e, consts), st, r)
  }

  /** The operator code computes `Apply`, under either division lowering when the quotient's
      operands are non-negative. */
  lemma OpStep(data: seq<DataLine>, op: BinOp, div: DivLowering, st: State, a: Word, b: Word)
    requires Operands(st, a, b)
    requires div == UnsignedDiv && op == Div ==> Signed(a) >= 0 && Signed(b) >= 0
    ensures Yields(Apply(op, a, b), st, Run(data, OpCode(op, div), st))
  {
    if op !in {Add, Sub, Mul, Div} {
      CompareStep(data, op, div, st, a, b);
    } else if div == SignedDiv {
      OpStepSigned(data, op, st, a, b);
    } else {
      OpStepUnsigned(data, op, st, a, b);
    }
  }

  /** Compiler correctness for `generate_expression_code`: with the signed division every
      compilable expression computes its `Eval` value, or faults exactly where `Eval` has
      none (a zero divisor or an overflowing quotient); with the unsigned division the same
      holds as long as no quotient has a negative operand. */
  lemma {:induction false} ExprCodeCorrect(e: Expr, consts: Constants, div: DivLowering, data: seq<DataLine>, st: State)
    requires ExprCode(e, consts, div).Ok? && st.status == Running
    requires div == UnsignedDiv ==> NonNegativeDivisions(e, consts)
    ensures Computes(e, consts, st, Run(data, ExprCode(e, consts, div).value, st))
    decreases e, 2
  {
    if e.BinaryOp? {
      BinaryCodeCorrect(e, consts, div, data, st);
    } else {
      LeafCodeCorrect(e, consts, div, data, st);
    }
  }

  lemma LeafCodeCorrect(e: Expr, consts: Constants, div: DivLowering, data: seq<DataLine>, st: State)
    requires !e.BinaryOp? && ExprCode(e, consts, div).Ok? && st.status == Running
    ensures Computes(e, consts, st, Run(data, ExprCode(e, consts, div).value, st))
  {
    var code := ExprCode(e, consts, div).value;
    assert |code| == 1;
    RunOne(data, code[0], st);
    ExecMov(data, st, "rax", Eval(e, consts).value);
  }

  lemma {:induction false} BinaryCodeCorrect(e: Expr, consts: Constants, div: DivLowering, data: seq<DataLine>, st: State)
    requires e.BinaryOp? && ExprCode(e, consts, div).Ok? && st.status == Running
    requires div == UnsignedDiv ==> NonNegativeDivisions(e, consts)
    ensures Computes(e, consts, st, Run(data, ExprCode(e, consts, div).value, st))
    decreases e, 1
  {
    var s4 := BinaryOperands(e, consts, div, data, st);
    var a, b := Eval(e.left, consts), Eval(e.right, consts);
    if a.Some? && b.Some? {
      OpStep(data, e.op, div, s4, a.value, b.value);
    }
  }

  /** The code of a binary node runs the right operand, saves it, runs the left operand and
      pops the right one into `rbx`: it reaches the operator with both values in place and the
      stack as it was, or faults if an operand does. */
  lemma {:induction false} BinaryOperands(e: Expr, consts: Constants, div: DivLowering, data: seq<DataLine>, st: State)
    returns (s4: State)
    requires e.BinaryOp? && ExprCode(e, consts, div).Ok? && st.status == Running
    requires div == UnsignedDiv ==> NonNegativeDivisions(e.left, consts) && NonNegativeDivisions(e.right, consts)
    ensures Eval(e.left, consts).None? || Eval(e.right, consts).None? ==>
      Run(data, ExprCode(e, consts, div).value, st).status == Fault
    ensures Eval(e.left, consts).Some? && Eval(e.right, consts).Some? ==>
      Operands(s4, Eval(e.left, consts).value, Eval(e.right, consts).value) &&
      s4.stack == st.stack && s4.out == st.out &&
      Run(data, ExprCode(e, consts, div).value, st) == Run(data, OpCode(e.op, div), s4)
    decreases e, 0
  {
    var op, l, r := e.op, e.left, e.right;
    var rc, lc := ExprCode(r, consts, div).value, ExprCode(l, consts, div).value;
    var tail := [Pop("rbx")] + OpCode(op, div);
    assert ExprCode(e, consts, div).value == rc + ([Push("rax")] + (lc + tail));
    RunAppend(data, rc, [Push("rax")] + (lc + tail), st);
    ExprCodeCorrect(r, consts, div, data, st);
    s4 := st;
    var s1 := Run(data, rc, st);
    if s1.status == Running {
      RunCons(data, Push("rax"), lc + tail, s1);
      RunOne(data, Push("rax"), s1);
      ExecPush(data, s1);
      var s2 := s1.(stack := s1.stack + [s1.rax]);
      RunAppend(data, lc, tail, s2);
      ExprCodeCorrect(l, consts, div, data, s2);
      var s3 := Run(data, lc, s2);
      if s3.status == Running {
        RunCons(data, Pop("rbx"), OpCode(op, div), s3);
        RunOne(data, Pop("rbx"), s3);
        ExecPop(data, s3);
        s4 := s3.(rbx := s3.stack[|s3.stack| - 1], stack := s3.stack[..|s3.stack| - 1]);
      }
    }
  }

  /** `(0 - 6) / 2` */
  const NegativeQuotient: Expr := BinaryOp(Div, BinaryOp(Sub, Number(0), Number(6)), Number(2))

  /** As written, `xor rdx, rdx; div rbx` divides the bit pattern of -6 as an unsigned number:
      the program computes 2^63 - 3 where -3 is meant. */
  lemma UnsignedDivisionWrong(data: seq<DataLine>, st: State)
    requires st.status == Running
    ensures Eval(NegativeQuotient, map[]) == Some(Modulus - 3)
    ensures ExprCode(NegativeQuotient, map[], UnsignedDiv).Ok?
    ensures Run(data, ExprCode(NegativeQuotient, map[], UnsignedDiv).value, st).rax == W(Half - 3)
  {
    NegativeQuotientValue();
    var code := ExprCode(NegativeQuotient, map[], UnsignedDiv).value;
    var s4 := BinaryOperands(NegativeQuotient, map[], UnsignedDiv, data, st);
    assert Operands(s4, Modulus - 6, 2) && Run(data, code, st) == Run(data, OpCode(Div, UnsignedDiv), s4);
    assert OpCode(Div, UnsignedDiv) == [Op2("xor", "rdx", "rdx")] + [Ins("div", [Reg("rbx")])];
    RunCons(data, Op2("xor", "rdx", "rdx"), [Ins("div", [Reg("rbx")])], s4);
    RunOne(data, Op2("xor", "rdx", "rdx"), s4);
    ExecXorRdx(data, s4);
    var s5 := s4.(rdx := W(0));
    RunOne(data, Ins("div", [Reg("rbx")]), s5);
    ExecDiv(data, s5);
    UnsignedHalving(s5);
  }

  lemma NegativeQuotientValue()
    ensures Eval(NegativeQuotient.left, map[]) == Some(Modulus - 6)
    ensures Eval(NegativeQuotient, map[]) == Some(Modulus - 3)
  {
  }

  /** `div rbx` with `rdx = 0`, `rax` the pattern of -6 and `rbx = 2`. */
  lemma UnsignedHalving(st: State)
    requires Operands(st, Modulus - 6, 2) && st.rdx == W(0)
    ensures DivUnsigned(st).rax == W(Half - 3)
  {
    assert (0 * Modulus + (Modulus - 6)) / 2 == Half - 3;
  }

  /** The corrected lowering computes `-3` for the same program. */
  lemma SignedDivisionRight(data: seq<DataLine>, st: State)
    requires st.status == Running
    ensures ExprCode(NegativeQuotient, map[], SignedDiv).Ok?
    ensures Run(data, ExprCode(NegativeQuotient, map[], SignedDiv).value, st).rax == W(Modulus - 3)
  {
    ExprCodeCorrect(NegativeQuotient, map[], SignedDiv, data, st);
    assert TruncDiv(-6, 2) == -3;
  }

  // ---------------------------------------------------------------------------
  // Statements

  lemma RunComment(data: seq<DataLine>, text: string, rest: seq<Line>, st: State)
    ensures Run(data, [Comment(text)] + rest, st) == Run(data, rest, st)
  {
    if st.status == Running {
      RunCons(data, Comment(text), rest, st);
      RunOne(data, Comment(text), st);
    }
  }

  /** `mov rax, 60; mov rdi, v; syscall` ends the program with status `v`. */
  lemma ExitLines(data: seq<DataLine>, v: int, rest: seq<Line>, st: State)
    requires st.status == Running
    ensures Run(data, [Mov("rax", 60), Mov("rdi", v), Syscall()] + rest, st).status == Exited(Wrap(v))
  {
    var s1 := Set(st, "rax", W(60));
    var s2 := Set(s1, "rdi", W(Wrap(v)));
    assert [Mov("rax", 60), Mov("rdi", v), Syscall()] + rest == [Mov("rax", 60)] + ([Mov("rdi", v)] + ([Syscall()] + rest));
    RunCons(data, Mov("rax", 60), [Mov("rdi", v)] + ([Syscall()] + rest), st);
    RunOne(data, Mov("rax", 60), st);
    ExecMov(data, st, "rax", 60);
    RunCons(data, Mov("rdi", v), [Syscall()] + rest, s1);
    RunOne(data, Mov("rdi", v), s1);
    ExecMov(data, s1, "rdi", v);
    RunCons(data, Syscall(), rest, s2);
    RunOne(data, Syscall(), s2);
    assert Exec(data, s2, Syscall()) == Sys(data, s2);
  }

  /** `mov rdi, rax` followed by `sys_exit` ends the program with the value in `rax`. */
  lemma ExitWithRax(data: seq<DataLine>, st: State, w: Word)
    requires st.status == Running && st.rax == W(w)
    ensures Run(data, [MovReg("rdi", "rax")] + ExitCall(), st).status == Exited(w)
  {
    var s1 := st.(rdi := W(w));
    var s2 := s1.(rax := W(60));
    assert [MovReg("rdi", "rax")] + ExitCall() == [MovReg("rdi", "rax")] + ([Mov("rax", 60)] + ([Syscall()] + [Blank]));
    RunCons(data, MovReg("rdi", "rax"), [Mov("rax", 60)] + ([Syscall()] + [Blank]), st);
    RunOne(data, MovReg("rdi", "rax"), st);
    RunCons(data, Mov("rax", 60), [Syscall()] + [Blank], s1);
    RunOne(data, Mov("rax", 60), s1);
    ExecMov(data, s1, "rax", 60);
    RunCons(data, Syscall(), [Blank], s2);
    RunOne(data, Syscall(), s2);
    assert Exec(data, s2, Syscall()) == Sys(data, s2);
  }

  /** The exit status a program reaches for an `exit(code)` statement: the value of `code`,
      or a fault where it has none. */
  function ExitOutcome(v: Option<Word>): Status
  {
    if v.Some? then Exited(v.value) else Fault
  }

  /** `exit(code)` ends the program with the value of `code`: a literal, a number or
      boolean constant, or the result of the expression code. */
  lemma ExitStmtCorrect(code: Expr, consts: Constants, div: DivLowering, data: seq<DataLine>, st: State)
    requires ExitStmt(code, consts, div).Ok? && st.status == Running
    requires div == UnsignedDiv ==> NonNegativeDivisions(code, consts)
    ensures Run(data, ExitStmt(code, consts, div).value, st).status == ExitOutcome(Eval(code, consts))
  {
    var lines := ExitStmt(code, consts, div).value;
    if code.Number? || code.Variable? {
      var v := if code.Number? then code.n
        else if consts[code.name].Number? then consts[code.name].n else BoolInt(consts[code.name].b);
      assert lines == [lines[0]] + ([Mov("rax", 60), Mov("rdi", v), Syscall()] + [Blank]);
      RunComment(data, lines[0].text, [Mov("rax", 60), Mov("rdi", v), Syscall()] + [Blank], st);
      ExitLines(data, v, [Blank], st);
    } else {
      var ec := ExprCode(code, consts, div).value;
      assert lines == [Comment("Exit program with expression result")] + (ec + ([MovReg("rdi", "rax")] + ExitCall()));
      RunComment(data, "Exit program with expression result", ec + ([MovReg("rdi", "rax")] + ExitCall()), st);
      RunAppend(data, ec, [MovReg("rdi", "rax")] + ExitCall(), st);
      ExprCodeCorrect(code, consts, div, data, st);
      var s1 := Run(data, ec, st);
      if s1.status == Running {
        ExitWithRax(data, s1, Eval(code, consts).value);
      }
    }
  }

  /** The default exit ends the program with status 0. */
  lemma DefaultExitCorrect(data: seq<DataLine>, st: State)
    requires st.status == Running
    ensures Run(data, DefaultExit(), st).status == Exited(0)
    ensures Run(data, DefaultExit(), st).out == st.out
  {
    var s1 := Set(st, "rax", W(60));
    var s2 := s1.(rdi := W(0));
    assert DefaultExit() == [Comment("Default exit")] + ([Mov("rax", 60)] + ([Op2("xor", "rdi", "rdi")] + [Syscall()]));
    RunComment(data, "Default exit", [Mov("rax", 60)] + ([Op2("xor", "rdi", "rdi")] + [Syscall()]), st);
    RunCons(data, Mov("rax", 60), [Op2("xor", "rdi", "rdi")] + [Syscall()], st);
    RunOne(data, Mov("rax", 60), st);
    ExecMov(data, st, "rax", 60);
    RunCons(data, Op2("xor", "rdi", "rdi"), [Syscall()], s1);
    RunOne(data, Op2("xor", "rdi", "rdi"), s1);
    ExecXorRdi(data, s1);
    RunOne(data, Syscall(), s2);
    SysExit(data, s2, 0);
    assert Run(data, DefaultExit(), st) == Halt(s2, Exited(0));
  }

  lemma ExecXorRdi(data: seq<DataLine>, st: State)
    ensures Exec(data, st, Op2("xor", "rdi", "rdi")) == st.(rdi := W(0))
  {
  }

  /** `syscall` with 60 in `rax` ends the program with the status in `rdi`. */
  lemma SysExit(data: seq<DataLine>, st: State, v: Word)
    requires st.rax == W(60) && st.rdi == W(v)
    ensures Exec(data, st, Syscall()) == Halt(st, Exited(v))
  {
    assert Exec(data, st, Syscall()) == Sys(data, st);
  }

  // ---------------------------------------------------------------------------
  // Printing

  lemma {:induction false} LookupAppend(a: seq<DataLine>, b: seq<DataLine>, sym: string)
    requires Lookup(a, sym).Some?
    ensures Lookup(a + b, sym) == Lookup(a, sym)
  {
    if SymOf(a[0]) != sym {
      assert (a + b)[1..] == a[1..] + b;
      LookupAppend(a[1..], b, sym);
    }
  }

  /** The buffers defined before collection keep their definitions in any later data section. */
  lemma InitialLookup(rest: seq<DataLine>, i: nat)
    requires i < |InitialData|
    ensures Lookup(InitialData + rest, SymOf(InitialData[i])) == Some(InitialData[i])
  {
    InitialFirst(i);
    LookupAppend(InitialData, rest, SymOf(InitialData[i]));
  }

  /** Each buffer of the initial data section is found at its own line. */
  lemma InitialFirst(i: nat)
    requires i < |InitialData|
    ensures Lookup(InitialData, SymOf(InitialData[i])) == Some(InitialData[i])
  {
    var syms := ["digit_buffer", "str_buffer", "true_str", "false_str", "null_str",
      "array_open", "array_close", "array_separator"];
    assert forall j :: 0 <= j < |InitialData| ==> SymOf(InitialData[j]) == syms[j];
    if i == 0 {
    } else if i == 1 {
      LookupFirst(InitialData, 1);
    } else if i == 2 {
      LookupFirst(InitialData, 2);
    } else if i == 3 {
      LookupFirst(InitialData, 3);
    } else if i == 4 {
      LookupFirst(InitialData, 4);
    } else if i == 5 {
      LookupFirst(InitialData, 5);
    } else if i == 6 {
      LookupFirst(InitialData, 6);
    } else {
      LookupFirst(InitialData, 7);
    }
  }

  /** Lookup finds the first line that defines a symbol. */
  lemma {:induction false} LookupFirst(data: seq<DataLine>, i: nat)
    requires i < |data| && forall j :: 0 <= j < i ==> SymOf(data[j]) != SymOf(data[i])
    ensures Lookup(data, SymOf(data[i])) == Some(data[i])
  {
    if i > 0 {
      assert data[1..][i - 1] == data[i];
      assert forall j :: 0 <= j < i - 1 ==> data[1..][j] == data[j + 1];
      LookupFirst(data[1..], i - 1);
    }
  }

  lemma ExecMovSym(data: seq<DataLine>, st: State, r: string, sym: string)
    requires IsGpr(r)
    ensures Exec(data, st, MovSym(r, sym)) == Set(st, r, Ptr(sym))
  {
  }

  lemma SysWrite(data: seq<DataLine>, st: State, sym: string, len: Word)
    requires st.rax == W(1) && st.rdi == W(1) && st.rsi == Ptr(sym) && st.rdx == W(len)
    requires Lookup(data, sym).Some? && len <= |Contents(Lookup(data, sym).value)|
    ensures Exec(data, st, Syscall()) == st.(out := st.out + Contents(Lookup(data, sym).value)[..len])
  {
    assert Exec(data, st, Syscall()) == Sys(data, st);
  }

  /** The four loads of a write leave the arguments in place and change nothing else. */
  lemma WriteSetup(data: seq<DataLine>, sym: string, len: int, st: State, rest: seq<Line>)
    requires st.status == Running && 0 <= len < Modulus
    ensures Run(data, [Mov("rax", 1), Mov("rdi", 1), MovSym("rsi", sym), Mov("rdx", len)] + rest, st) ==
      Run(data, rest, st.(rax := W(1), rdi := W(1), rsi := Ptr(sym), rdx := W(len)))
  {
    var s1 := st.(rax := W(1));
    var s2 := s1.(rdi := W(1));
    var s3 := s2.(rsi := Ptr(sym));
    var s4 := s3.(rdx := W(len));
    assert [Mov("rax", 1), Mov("rdi", 1), MovSym("rsi", sym), Mov("rdx", len)] + rest ==
      [Mov("rax", 1)] + ([Mov("rdi", 1)] + ([MovSym("rsi", sym)] + ([Mov("rdx", len)] + rest)));
    RunCons(data, Mov("rax", 1), [Mov("rdi", 1)] + ([MovSym("rsi", sym)] + ([Mov("rdx", len)] + rest)), st);
    RunOne(data, Mov("rax", 1), st);
    ExecMov(data, st, "rax", 1);
    RunCons(data, Mov("rdi", 1), [MovSym("rsi", sym)] + ([Mov("rdx", len)] + rest), s1);
    RunOne(data, Mov("rdi", 1), s1);
    ExecMov(data, s1, "rdi", 1);
    RunCons(data, MovSym("rsi", sym), [Mov("rdx", len)] + rest, s2);
    RunOne(data, MovSym("rsi", sym), s2);
    ExecMovSym(data, s2, "rsi", sym);
    RunCons(data, Mov("rdx", len), rest, s3);
    RunOne(data, Mov("rdx", len), s3);
    ExecMov(data, s3, "rdx", len);
  }

  /** `sys_write(1, sym, len)` appends the first `len` characters of `sym`'s data. */
  lemma WriteRuns(data: seq<DataLine>, sym: string, len: int, st: State)
    requires st.status == Running && Lookup(data, sym).Some?
    requires 0 <= len <= |Contents(Lookup(data, sym).value)| && len < Modulus
    ensures var r := Run(data, WriteCall(sym, len), st);
      r.status == Running && r.stack == st.stack && r.out == st.out + Contents(Lookup(data, sym).value)[..len]
  {
    var s4 := st.(rax := W(1), rdi := W(1), rsi := Ptr(sym), rdx := W(len));
    assert WriteCall(sym, len) == [Mov("rax", 1), Mov("rdi", 1), MovSym("rsi", sym), Mov("rdx", len)] + ([Syscall()] + [Blank]);
    WriteSetup(data, sym, len, st, [Syscall()] + [Blank]);
    RunCons(data, Syscall(), [Blank], s4);
    RunOne(data, Syscall(), s4);
    SysWrite(data, s4, sym, len);
    RunOne(data, Blank, Exec(data, s4, Syscall()));
  }

  /** The machine after running `code`: still running, with `text` appended to the output
      and the stack as it was. */
  predicate Writes(data: seq<DataLine>, code: seq<Line>, st: State, text: string)
  {
    var r := Run(data, code, st);
    r.status == Running && r.stack == st.stack && r.out == st.out + text
  }

  /** `print` of a boolean, of `null`, or of a name bound to either writes `Display` of the
      value and a newline. */
  lemma PrintFixedTextCorrect(inner: Expr, v: V.ConstValue, counter: nat, consts: Constants, labels: Labels,
                              div: DivLowering, rest: seq<DataLine>, st: State)
    requires st.status == Running
    requires v.Boolean? || v.Null?
    requires inner == (if v.Boolean? then Boolean(v.b) else Null) ||
             (inner.Variable? && inner.name in consts && consts[inner.name] == v)
    ensures PrintStmt(inner, counter, consts, labels, div).Ok?
    ensures Writes(InitialData + rest, PrintStmt(inner, counter, consts, labels, div).value.code, st,
                   V.Display(v) + "\n")
  {
    var data := InitialData + rest;
    var code := PrintStmt(inner, counter, consts, labels, div).value.code;
    var i := if v.Null? then 4 else if v.b then 2 else 3;
    var sym := SymOf(InitialData[i]);
    var len := if v.Null? then 5 else if v.b then 5 else 6;
    InitialLookup(rest, i);
    assert code == [code[0]] + WriteCall(sym, len);
    assert Contents(InitialData[i])[..len] == V.Display(v) + "\n";
    CommentWrite(data, code[0].text, sym, len, st, V.Display(v) + "\n");
  }

  /** A comment and then a write of the first `len` bytes under `sym` print those bytes. */
  lemma CommentWrite(data: seq<DataLine>, note: string, sym: string, len: int, st: State, text: string)
    requires st.status == Running && Lookup(data, sym).Some?
    requires 0 <= len <= |Contents(Lookup(data, sym).value)| && len < Modulus
    requires Contents(Lookup(data, sym).value)[..len] == text
    ensures Writes(data, [Comment(note)] + WriteCall(sym, len), st, text)
  {
    RunComment(data, note, WriteCall(sym, len), st);
    WriteRuns(data, sym, len, st);
  }

  /** A comment and a write of a whole newline-terminated definition print its text. */
  lemma WriteDefinition(data: seq<DataLine>, note: string, d: DataLine, st: State)
    requires st.status == Running && d.Define? && d.newline && Lookup(data, d.sym) == Some(d)
    requires |d.text| + 1 < Modulus
    ensures Writes(data, [Comment(note)] + WriteCall(d.sym, |d.text| + 1), st, d.text + "\n")
  {
    RunComment(data, note, WriteCall(d.sym, |d.text| + 1), st);
    WriteRuns(data, d.sym, |d.text| + 1, st);
    assert Contents(d)[..|d.text| + 1] == d.text + "\n";
  }

  lemma IntToStringShort(n: Int32)
    ensures |IntToString(n)| + 1 < Modulus
  {
    assert Pow10(10) == 10_000_000_000;
    var m: int := n;
    DigitCount(if m < 0 then -m else m, 10);
  }

  /** `print n` for a literal or a constant number writes the decimal text and a newline,
      once the label it names holds the definition it emitted. */
  lemma PrintNumberCorrect(inner: Expr, n: Int32, counter: nat, consts: Constants, labels: Labels,
                           div: DivLowering, data: seq<DataLine>, st: State)
    requires st.status == Running
    requires inner == Number(n) || (inner.Variable? && inner.name in consts && consts[inner.name] == V.Number(n))
    requires var em := PrintStmt(inner, counter, consts, labels, div);
      em.Ok? && |em.value.data| == 1 && Lookup(data, SymOf(em.value.data[0])) == Some(em.value.data[0])
    ensures Writes(data, PrintStmt(inner, counter, consts, labels, div).value.code, st, V.Display(V.Number(n)) + "\n")
  {
    var em := PrintStmt(inner, counter, consts, labels, div).value;
    var d := em.data[0];
    if inner.Number? {
      var sym := "num" + NatToString(counter);
      assert d == Define(sym, '"', IntToString(n), true);
      assert em.code == [Comment("Print number: " + IntToString(n))] + WriteCall(sym, |IntToString(n)| + 1);
    } else {
      var sym := VarSym(inner.name);
      assert d == Define(sym, '"', IntToString(n), true);
      assert em.code == [Comment("Print numeric variable: " + inner.name)] + WriteCall(sym, |IntToString(n)| + 1);
    }
    IntToStringShort(n);
    WriteDefinition(data, em.code[0].text, d, st);
  }

  function Pow10(k: nat): nat { if k == 0 then 1 else 10 * Pow10(k - 1) }

  /** At most `k` digits for a number below `10^k`. */
  lemma {:induction false} DigitCount(n: nat, k: nat)
    requires 1 <= k && n < Pow10(k)
    ensures |NatToString(n)| <= k
  {
    if n >= 10 {
      assert k > 1;
      DigitCount(n / 10, k - 1);
    }
  }

  /** As written, `print "text"` writes the text and then the NUL terminator: its length
      counts a newline that the literal's data line does not hold. */
  lemma PrintStringLiteralCorrect(s: string, counter: nat, consts: Constants, labels: Labels, div: DivLowering,
                                  data: seq<DataLine>, st: State)
    requires st.status == Running
    requires forall i :: 0 <= i < |s| ==> (s[i] as int) < 0x80
    requires |s| + 1 < Modulus
    requires FindLabel(labels, s).Some?
    requires Lookup(data, FindLabel(labels, s).value) == Some(Define(FindLabel(labels, s).value, '"', s, false))
    ensures PrintStmt(StringLiteral(s), counter, consts, labels, div).Ok?
    ensures Writes(data, PrintStmt(StringLiteral(s), counter, consts, labels, div).value.code, st, s + "\0")
  {
    var sym := FindLabel(labels, s).value;
    Utf8LengthAscii(s);
    assert PrintStmt(StringLiteral(s), counter, consts, labels, div).value.code ==
      [Comment("Print: " + s)] + WriteCall(sym, |s| + 1);
    assert Contents(Define(sym, '"', s, false))[..|s| + 1] == s + "\0";
    CommentWrite(data, "Print: " + s, sym, |s| + 1, st, s + "\0");
  }

  // ---------------------------------------------------------------------------
  // Printing an array literal

  /** Running `a` and then `b` writes what each writes, in order. */
  lemma WritesAppend(data: seq<DataLine>, a: seq<Line>, b: seq<Line>, st: State, t1: string, t2: string)
    requires Writes(data, a, st, t1) && Writes(data, b, Run(data, a, st), t2)
    ensures Writes(data, a + b, st, t1 + t2)
  {
    RunAppend(data, a, b, st);
    AppendAssoc3(st.out, t1, t2);
  }

  /** Joining a list with one more part in front. */
  lemma {:induction false} JoinCons<T>(p: seq<T>, ps: seq<seq<T>>, sep: seq<T>)
    ensures Join([p] + ps, sep) == p + (if ps != [] then sep else []) + Join(ps, sep)
    decreases |ps|
  {
    if ps == [] {
      assert [p] + ps == [p];
      assert Join([p], sep) == Join([p][..0], sep) + [] + p;
    } else {
      var q := ps[..|ps| - 1];
      assert ([p] + ps)[..|[p] + ps| - 1] == [p] + q;
      JoinCons(p, q, sep);
    }
  }

  /** An array element whose printing needs no run-time routine: a boolean, or an ASCII
      string literal whose label holds exactly its text. */
  predicate Showable(e: Expr, labels: Labels, data: seq<DataLine>)
  {
    e.Boolean? ||
    (e.StringLiteral? && (forall i :: 0 <= i < |e.s| ==> (e.s[i] as int) < 0x80) && |e.s| < Modulus &&
     FindLabel(labels, e.s).Some? &&
     Lookup(data, FindLabel(labels, e.s).value) == Some(Define(FindLabel(labels, e.s).value, '"', e.s, false)))
  }

  /** One element writes its `Display`, with no newline. */
  lemma ElementCorrect(e: Expr, consts: Constants, labels: Labels, div: DivLowering, rest: seq<DataLine>, st: State)
    requires st.status == Running && Showable(e, labels, InitialData + rest)
    ensures ElementCode(e, consts, labels, div).Ok? && ElementValue(e).Ok?
    ensures Writes(InitialData + rest, ElementCode(e, consts, labels, div).value, st, V.Display(ElementValue(e).value))
  {
    if e.Boolean? {
      BooleanElementCorrect(e.b, consts, labels, div, rest, st);
    } else {
      StringElementCorrect(e.s, consts, labels, div, InitialData + rest, st);
    }
  }

  lemma BooleanElementCorrect(b: bool, consts: Constants, labels: Labels, div: DivLowering, rest: seq<DataLine>, st: State)
    requires st.status == Running
    ensures ElementCode(Boolean(b), consts, labels, div).Ok?
    ensures Writes(InitialData + rest, ElementCode(Boolean(b), consts, labels, div).value, st, V.BoolText(b))
  {
    var data := InitialData + rest;
    var i := if b then 2 else 3;
    var len := if b then 4 else 5;
    InitialLookup(rest, i);
    assert ElementCode(Boolean(b), consts, labels, div).value ==
      [Comment("Print boolean: " + V.BoolText(b))] + WriteCall(SymOf(InitialData[i]), len);
    assert Contents(InitialData[i])[..len] == V.BoolText(b);
    CommentWrite(data, "Print boolean: " + V.BoolText(b), SymOf(InitialData[i]), len, st, V.BoolText(b));
  }

  lemma StringElementCorrect(s: string, consts: Constants, labels: Labels, div: DivLowering, data: seq<DataLine>, st: State)
    requires st.status == Running
    requires forall i :: 0 <= i < |s| ==> (s[i] as int) < 0x80
    requires |s| < Modulus && FindLabel(labels, s).Some?
    requires Lookup(data, FindLabel(labels, s).value) == Some(Define(FindLabel(labels, s).value, '"', s, false))
    ensures ElementCode(StringLiteral(s), consts, labels, div).Ok?
    ensures Writes(data, ElementCode(StringLiteral(s), consts, labels, div).value, st, s)
  {
    var sym := FindLabel(labels, s).value;
    Utf8LengthAscii(s);
    assert ElementCode(StringLiteral(s), consts, labels, div).value == [Comment("Print string: " + s)] + WriteCall(sym, |s|);
    assert Contents(Define(sym, '"', s, false))[..|s|] == s;
    CommentWrite(data, "Print string: " + s, sym, |s|, st, s);
  }

  /** `ElementValues` keeps each element's value at its position. */
  lemma {:induction false} ElementValuesAt(es: seq<Expr>)
    requires ElementValues(es).Ok?
    ensures forall j :: 0 <= j < |es| ==> ElementValue(es[j]).Ok? && ElementValues(es).value[j] == ElementValue(es[j]).value
  {
    if es != [] {
      ElementValuesAt(es[1..]);
      forall j | 0 <= j < |es|
        ensures ElementValue(es[j]).Ok? && ElementValues(es).value[j] == ElementValue(es[j]).value
      {
        if j > 0 {
          assert es[1..][j - 1] == es[j];
        }
      }
    }
  }

  /** The separator between two elements. */
  lemma SeparatorWrites(rest: seq<DataLine>, st: State)
    requires st.status == Running
    ensures Writes(InitialData + rest, WriteCall("array_separator", 2), st, ", ")
  {
    InitialLookup(rest, 7);
    WriteRuns(InitialData + rest, "array_separator", 2, st);
  }

  lemma WritesThree(data: seq<DataLine>, a: seq<Line>, b: seq<Line>, c: seq<Line>, st: State,
                    t1: string, t2: string, t3: string)
    requires Writes(data, a, st, t1) && Writes(data, b, Run(data, a, st), t2)
    requires Writes(data, c, Run(data, a + b, st), t3)
    ensures Writes(data, a + b + c, st, t1 + t2 + t3)
  {
    WritesAppend(data, a, b, st, t1, t2);
    WritesAppend(data, a + b, c, st, t1 + t2, t3);
  }

  /** The element writes from position `i` on write the rest of the joined list. */
  lemma {:induction false} ElementsFromCorrect(es: seq<Expr>, i: nat, vs: seq<V.ConstValue>, consts: Constants,
                                               labels: Labels, div: DivLowering, rest: seq<DataLine>, st: State)
    requires i <= |es| && st.status == Running
    requires forall j :: 0 <= j < |es| ==> Showable(es[j], labels, InitialData + rest)
    requires |vs| == |es| && forall j :: 0 <= j < |es| ==> ElementValue(es[j]).Ok? && vs[j] == ElementValue(es[j]).value
    ensures ElementsFrom(es, i, consts, labels, div).Ok?
    ensures Writes(InitialData + rest, ElementsFrom(es, i, consts, labels, div).value, st, Join(V.DisplayAll(vs[i..]), ", "))
    decreases |es| - i
  {
    var data := InitialData + rest;
    if i == |es| {
      assert vs[i..] == [];
    } else {
      var ec := ElementCode(es[i], consts, labels, div).value;
      var sep := if i < |es| - 1 then WriteCall("array_separator", 2) else [];
      var sepText := if i < |es| - 1 then ", " else "";
      assert Showable(es[i], labels, data) && vs[i] == ElementValue(es[i]).value;
      ElementAndSeparator(es[i], i < |es| - 1, consts, labels, div, rest, st);
      ElementsFromCorrect(es, i + 1, vs, consts, labels, div, rest, Run(data, ec + sep, st));
      var tail := ElementsFrom(es, i + 1, consts, labels, div).value;
      var later := Join(V.DisplayAll(vs[i + 1..]), ", ");
      WritesAppend(data, ec + sep, tail, st, V.Display(vs[i]) + sepText, later);
      JoinStep(vs, i);
      assert ElementsFrom(es, i, consts, labels, div).value == ec + sep + tail;
      assert Join(V.DisplayAll(vs[i..]), ", ") == V.Display(vs[i]) + sepText + later;
    }
  }

  /** One element and, unless it is the last, the separator after it. */
  lemma ElementAndSeparator(e: Expr, more: bool, consts: Constants, labels: Labels, div: DivLowering,
                            rest: seq<DataLine>, st: State)
    requires st.status == Running && Showable(e, labels, InitialData + rest)
    ensures ElementCode(e, consts, labels, div).Ok? && ElementValue(e).Ok?
    ensures Writes(InitialData + rest,
                   ElementCode(e, consts, labels, div).value + (if more then WriteCall("array_separator", 2) else []), st,
                   V.Display(ElementValue(e).value) + (if more then ", " else ""))
  {
    var data := InitialData + rest;
    var ec := ElementCode(e, consts, labels, div).value;
    ElementCorrect(e, consts, labels, div, rest, st);
    if more {
      SeparatorWrites(rest, Run(data, ec, st));
      WritesAppend(data, ec, WriteCall("array_separator", 2), st, V.Display(ElementValue(e).value), ", ");
    } else {
      assert ec + [] == ec;
      assert V.Display(ElementValue(e).value) + "" == V.Display(ElementValue(e).value);
    }
  }

  /** The shown elements from `i` on: the element, a separator unless it is the last,
      then the rest. */
  lemma JoinStep(vs: seq<V.ConstValue>, i: nat)
    requires i < |vs|
    ensures Join(V.DisplayAll(vs[i..]), ", ") ==
      V.Display(vs[i]) + (if i < |vs| - 1 then ", " else "") + Join(V.DisplayAll(vs[i + 1..]), ", ")
  {
    assert V.DisplayAll(vs[i..]) == [V.Display(vs[i])] + V.DisplayAll(vs[i + 1..]);
    JoinCons(V.Display(vs[i]), V.DisplayAll(vs[i + 1..]), ", ");
  }

  /** `print [e1, ..., en]` of booleans and string literals writes the array as
      `Display` renders it, `[e1, ..., en]`, with n - 1 separators, then a newline. */
  lemma PrintArrayCorrect(es: seq<Expr>, counter: nat, consts: Constants, labels: Labels, div: DivLowering,
                          rest: seq<DataLine>, st: State)
    requires st.status == Running
    requires forall j :: 0 <= j < |es| ==> Showable(es[j], labels, InitialData + rest)
    ensures ElementValues(es).Ok? && PrintStmt(Array(es), counter, consts, labels, div).Ok?
    ensures Writes(InitialData + rest, PrintStmt(Array(es), counter, consts, labels, div).value.code, st,
                   V.Display(V.Array(ElementValues(es).value)) + "\n")
  {
    var text := ArrayWrites(es, consts, labels, div, rest, st);
    PrintArrayFinish(es, counter, consts, labels, div, InitialData + rest, st, text);
  }

  /** The run of the bracketed elements is the run of the `print`, and its text is the
      `Display` of the array and a newline. */
  lemma PrintArrayFinish(es: seq<Expr>, counter: nat, consts: Constants, labels: Labels, div: DivLowering,
                         data: seq<DataLine>, st: State, text: string)
    requires ElementValues(es).Ok? && ElementsCode(es, consts, labels, div).Ok?
    requires text == "[" + Join(V.DisplayAll(ElementValues(es).value), ", ") + "]\n"
    requires Writes(data, [Comment("Print array")] + WriteCall("array_open", 1) +
                    ElementsCode(es, consts, labels, div).value + WriteCall("array_close", 2), st, text)
    ensures PrintStmt(Array(es), counter, consts, labels, div).Ok?
    ensures Writes(data, PrintStmt(Array(es), counter, consts, labels, div).value.code, st,
                   V.Display(V.Array(ElementValues(es).value)) + "\n")
  {
    PrintArrayCode(es, counter, consts, labels, div);
    DisplayArrayLine(ElementValues(es).value);
  }

  /** The brackets, the elements and the separators, as a run of lines. */
  lemma ArrayWrites(es: seq<Expr>, consts: Constants, labels: Labels, div: DivLowering, rest: seq<DataLine>, st: State)
    returns (text: string)
    requires st.status == Running
    requires forall j :: 0 <= j < |es| ==> Showable(es[j], labels, InitialData + rest)
    ensures ElementValues(es).Ok? && ElementsCode(es, consts, labels, div).Ok?
    ensures text == "[" + Join(V.DisplayAll(ElementValues(es).value), ", ") + "]\n"
    ensures Writes(InitialData + rest, [Comment("Print array")] + WriteCall("array_open", 1) +
                   ElementsCode(es, consts, labels, div).value + WriteCall("array_close", 2), st, text)
  {
    var data := InitialData + rest;
    ShowableValues(es, labels, data);
    var vs := ElementValues(es).value;
    ElementValuesAt(es);
    var open := [Comment("Print array")] + WriteCall("array_open", 1);
    OpenWrites(rest, st);
    ElementsFromCorrect(es, 0, vs, consts, labels, div, rest, Run(data, open, st));
    var ec := ElementsCode(es, consts, labels, div).value;
    var close := WriteCall("array_close", 2);
    assert vs[0..] == vs;
    var joined := Join(V.DisplayAll(vs), ", ");
    WritesAppend(data, open, ec, st, "[", joined);
    CloseWrites(rest, Run(data, open + ec, st));
    WritesThree(data, open, ec, close, st, "[", joined, "]\n");
    text := "[" + joined + "]\n";
  }

  lemma PrintArrayCode(es: seq<Expr>, counter: nat, consts: Constants, labels: Labels, div: DivLowering)
    requires ElementsCode(es, consts, labels, div).Ok?
    ensures PrintStmt(Array(es), counter, consts, labels, div).Ok?
    ensures PrintStmt(Array(es), counter, consts, labels, div).value.code ==
      [Comment("Print array")] + WriteCall("array_open", 1) + ElementsCode(es, consts, labels, div).value +
      WriteCall("array_close", 2)
  {
  }

  lemma DisplayArrayLine(vs: seq<V.ConstValue>)
    ensures V.Display(V.Array(vs)) + "\n" == "[" + Join(V.DisplayAll(vs), ", ") + "]\n"
  {
  }

  lemma OpenWrites(rest: seq<DataLine>, st: State)
    requires st.status == Running
    ensures Writes(InitialData + rest, [Comment("Print array")] + WriteCall("array_open", 1), st, "[")
  {
    InitialLookup(rest, 5);
    RunComment(InitialData + rest, "Print array", WriteCall("array_open", 1), st);
    WriteRuns(InitialData + rest, "array_open", 1, st);
  }

  lemma CloseWrites(rest: seq<DataLine>, st: State)
    requires st.status == Running
    ensures Writes(InitialData + rest, WriteCall("array_close", 2), st, "]\n")
  {
    InitialLookup(rest, 6);
    WriteRuns(InitialData + rest, "array_close", 2, st);
  }

  lemma {:induction false} ShowableValues(es: seq<Expr>, labels: Labels, data: seq<DataLine>)
    requires forall j :: 0 <= j < |es| ==> Showable(es[j], labels, data)
    ensures ElementValues(es).Ok?
  {
    if es != [] {
      ShowableValues(es[1..], labels, data);
    }
  }

  // ---------------------------------------------------------------------------
  // The data lines added by the statement loop

  /** `print 5` */
  const PrintFive: seq<Expr> := [Print(Number(5))]

  lemma PrintFiveLoop(div: DivLowering)
    ensures Compile(PrintFive, div) == Ok(Output(InitialData, Gen(InitialData + [Define("num0", '"', "5", true)],
      [Comment("Print number: 5")] + WriteCall("num0", 2) + DefaultExit(), 1, map[])))
  {
    assert NatToString(0) == "0" && IntToString(5) == "5";
    assert "num" + NatToString(0) == "num0";
    var c0 := Collection([], 0, InitialData);
    assert Collect(Number(5), c0) == c0;
    assert Collect(PrintFive[0], c0) == c0;
    assert CollectAll(PrintFive, c0) == CollectAll([], c0) == c0 by {
      assert PrintFive[1..] == [];
    }
    var g0 := Gen(InitialData, [], 0, map[]);
    var code := [Comment("Print number: 5")] + WriteCall("num0", 2);
    var d := Define("num0", '"', "5", true);
    var text := IntToString(5);
    assert text == "5";
    assert "Print number: " + text == "Print number: 5";
    assert |text| + 1 == 2;
    assert PrintStmt(Number(5), 0, map[], [], div) ==
      Ok(Emitted([Comment("Print number: " + text)] + WriteCall("num" + NatToString(0), |text| + 1),
                 [Define("num" + NatToString(0), '"', text, true)], 1));
    assert PrintStmt(Number(5), 0, map[], [], div) == Ok(Emitted(code, [d], 1));
    var g1 := Gen(InitialData + [d], [] + code, 1, map[]);
    assert Step(g0, PrintFive[0], [], div) == Ok(g1);
    assert StatementLoop(PrintFive, g0, [], div) == StatementLoop([], g1, [], div) by {
      assert PrintFive[1..] == [];
    }
    assert [] + code == code;
    assert !HasExit(PrintFive);
  }

  lemma PrintFiveCompiles()
    ensures Compile(PrintFive, UnsignedDiv).Ok? && Compile(PrintFive, SignedDiv).Ok?
    ensures Compile(PrintFive, UnsignedDiv).value == Compile(PrintFive, SignedDiv).value
    ensures var out := Compile(PrintFive, UnsignedDiv).value;
      out.collected == InitialData &&
      out.final.data == InitialData + [Define("num0", '"', "5", true)] &&
      out.final.text == [Comment("Print number: 5")] + WriteCall("num0", 2) + DefaultExit()
  {
    PrintFiveLoop(UnsignedDiv);
    PrintFiveLoop(SignedDiv);
  }

  /** None of the fixed buffers is called `num0`. */
  lemma NoFixedNum0()
    ensures Lookup(InitialData, "num0").None?
  {
    var syms := ["digit_buffer", "str_buffer", "true_str", "false_str", "null_str", "array_open", "array_close",
                 "array_separator"];
    assert forall i :: 0 <= i < |InitialData| ==> SymOf(InitialData[i]) == syms[i];
    forall i | 0 <= i < |syms| ensures syms[i] != "num0" {
      assert syms[i][2] != 'm';
    }
  }

  /** The code of `print 5` and the default exit. */
  const FiveCode: seq<Line> := [Comment("Print number: 5")] + WriteCall("num0", 2) + DefaultExit()

  lemma FiveAsWrittenRun(st: State)
    requires st.status == Running
    ensures Run(InitialData, FiveCode, st).status == Stuck
  {
    var data := InitialData;
    var w := [Comment("Print number: 5")] + WriteCall("num0", 2);
    assert FiveCode == w + DefaultExit();
    RunAppend(data, w, DefaultExit(), st);
    RunComment(data, "Print number: 5", WriteCall("num0", 2), st);
    NoFixedNum0();
    WriteUndefined(data, "num0", 2, st);
  }

  /** A write that names a symbol the data section does not define gets stuck. */
  lemma WriteUndefined(data: seq<DataLine>, sym: string, len: int, st: State)
    requires st.status == Running && Lookup(data, sym).None? && 0 <= len < Modulus
    ensures Run(data, WriteCall(sym, len), st).status == Stuck
  {
    var rest := [Syscall(), Blank];
    assert WriteCall(sym, len) == [Mov("rax", 1), Mov("rdi", 1), MovSym("rsi", sym), Mov("rdx", len)] + rest;
    WriteSetup(data, sym, len, st, rest);
    var s4 := st.(rax := W(1), rdi := W(1), rsi := Ptr(sym), rdx := W(len));
    RunCons(data, Syscall(), [Blank], s4);
    RunOne(data, Syscall(), s4);
    assert Exec(data, s4, Syscall()) == Sys(data, s4);
  }

  lemma FiveFixedRun(st: State)
    requires st.status == Running
    ensures var r := Run(InitialData + [Define("num0", '"', "5", true)], FiveCode, st);
      r.out == st.out + "5\n" && r.status == Exited(0)
  {
    var d := Define("num0", '"', "5", true);
    var data := InitialData + [d];
    NoFixedNum0();
    LookupAfter(InitialData, [d], "num0");
    assert Lookup(data, "num0") == Some(d);
    var w := [Comment("Print number: 5")] + WriteCall("num0", 2);
    assert FiveCode == w + DefaultExit();
    WriteDefinition(data, "Print number: 5", d, st);
    assert d.text + "\n" == "5\n";
    ThenDefaultExit(data, w, st, "5\n");
  }

  /** Code that writes `text` and then the default exit: the text is out and the status is 0. */
  lemma ThenDefaultExit(data: seq<DataLine>, w: seq<Line>, st: State, text: string)
    requires Writes(data, w, st, text)
    ensures var r := Run(data, w + DefaultExit(), st); r.out == st.out + text && r.status == Exited(0)
  {
    RunAppend(data, w, DefaultExit(), st);
    DefaultExitCorrect(data, Run(data, w, st));
  }

  /** As written, `print 5` defines `num0` only in the data lines the statement loop adds,
      which the document leaves out: with the data section as emitted, the write names a
      symbol nothing defines and the program cannot run. */
  lemma PrintFiveAsWritten(st: State)
    requires st.status == Running
    ensures var out := Compile(PrintFive, UnsignedDiv).value;
      Lookup(out.collected, "num0").None? && Run(out.collected, out.final.text, st).status == Stuck
  {
    PrintFiveCompiles();
    NoFixedNum0();
    FiveAsWrittenRun(st);
  }

  /** With the data section kept whole, `print 5` writes `5` and a newline and the program
      ends through the default exit with status 0. */
  lemma PrintFiveFixed(st: State)
    requires st.status == Running
    ensures var out := Compile(PrintFive, SignedDiv).value;
      var r := Run(out.final.data, out.final.text, st);
      r.out == st.out + "5\n" && r.status == Exited(0)
  {
    PrintFiveCompiles();
    FiveFixedRun(st);
  }

  lemma {:induction false} LookupAfter(a: seq<DataLine>, b: seq<DataLine>, sym: string)
    requires Lookup(a, sym).None?
    ensures Lookup(a + b, sym) == Lookup(b, sym)
  {
    if a != [] {
      assert (a + b)[1..] == a[1..] + b;
      LookupAfter(a[1..], b, sym);
    } else {
      assert a + b == b;
    }
  }
}
