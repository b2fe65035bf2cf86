/** A small x86-64 machine that runs the instructions the generator emits for
    expressions, exits and writes: 64-bit registers, the stack, the operands of the
    last `cmp`, and the characters written to standard output. Calls into the
    embedded routines are not modelled: the machine gets stuck on them. */
module Machine {
  import opened Wrappers
  import opened Ast
  import opened Asm

  const Modulus: int := 0x1_0000_0000_0000_0000
  const Half: int := 0x8000_0000_0000_0000

  type Word = w: int | 0 <= w < Modulus

  /** Two's complement wrap-around to 64 bits. */
  function Wrap(x: int): (w: Word)
    ensures 0 <= x < Modulus ==> w == x
  {
    x % Modulus
  }

  /** The signed reading of a word. */
  function Signed(w: Word): (x: int)
    ensures -Half <= x < Half
    ensures Wrap(x) == w
  {
    if w < Half then w else w - Modulus
  }

  /** Division rounding toward zero, as `idiv` does. */
  function TruncDiv(a: int, b: int): int
    requires b != 0
  {
    if (a >= 0) == (b > 0) then (if a >= 0 then a / b else (-a) / (-b))
    else -((if a >= 0 then a else -a) / (if b > 0 then b else -b))
  }

  /** A register holds a number or the address of a data label. */
  datatype Val = W(w: Word) | Ptr(sym: string)

  datatype Status = Running | Exited(code: Word) | Fault | Stuck

  datatype State = State(
    rax: Val, rbx: Val, rcx: Val, rdx: Val, rsi: Val, rdi: Val,
    stack: seq<Val>, cmpLeft: int, cmpRight: int, out: string, status: Status)

  predicate IsGpr(r: string) { r == "rax" || r == "rbx" || r == "rcx" || r == "rdx" || r == "rsi" || r == "rdi" }

  function Get(st: State, r: string): Val
    requires IsGpr(r)
  {
    if r == "rax" then st.rax else if r == "rbx" then st.rbx else if r == "rcx" then st.rcx
    else if r == "rdx" then st.rdx else if r == "rsi" then st.rsi else st.rdi
  }

  function Set(st: State, r: string, v: Val): State
    requires IsGpr(r)
  {
    if r == "rax" then st.(rax := v) else if r == "rbx" then st.(rbx := v) else if r == "rcx" then st.(rcx := v)
    else if r == "rdx" then st.(rdx := v) else if r == "rsi" then st.(rsi := v) else st.(rdi := v)
  }

  function Halt(st: State, s: Status): State { st.(status := s) }

  /** `rax := f(rax, rbx)` on numbers. */
  function Arith(st: State, op: string): State
  {
    if !st.rax.W? || !st.rbx.W? then Halt(st, Stuck)
    else
      var a, b := st.rax.w, st.rbx.w;
      if op == "add" then st.(rax := W(Wrap(a + b)))
      else if op == "sub" then st.(rax := W(Wrap(a - b)))
      else st.(rax := W(Wrap(Signed(a) * Signed(b))))
  }

  /** `div rbx`: the unsigned 128-bit `rdx:rax` divided by `rbx`. */
  function DivUnsigned(st: State): State
  {
    if !st.rax.W? || !st.rbx.W? || !st.rdx.W? then Halt(st, Stuck)
    else if st.rbx.w == 0 then Halt(st, Fault)
    else
      var n := st.rdx.w * Modulus + st.rax.w;
      var q := n / st.rbx.w;
      if q >= Modulus then Halt(st, Fault)
      else st.(rax := W(q), rdx := W(n % st.rbx.w))
  }

  /** `idiv rbx`: the signed 128-bit `rdx:rax` divided by `rbx`, rounding toward zero. */
  function DivSigned(st: State): State
  {
    if !st.rax.W? || !st.rbx.W? || !st.rdx.W? then Halt(st, Stuck)
    else if st.rbx.w == 0 then Halt(st, Fault)
    else
      var n := Signed(st.rdx.w) * Modulus + st.rax.w;
      var d := Signed(st.rbx.w);
      var q := TruncDiv(n, d);
      if q < -Half || q >= Half then Halt(st, Fault)
      else st.(rax := W(Wrap(q)), rdx := W(Wrap(n - q * d)))
  }

  /** The condition a `setX` instruction tests on the operands of the last `cmp`. */
  function Condition(name: string, a: int, b: int): bool
  {
    if name == "sete" then a == b
    else if name == "setne" then a != b
    else if name == "setl" then a < b
    else if name == "setg" then a > b
    else if name == "setle" then a <= b
    else a >= b
  }

  predicate IsSet(name: string)
  {
    name == "sete" || name == "setne" || name == "setl" || name == "setg" || name == "setle" || name == "setge"
  }

  /** `sys_write` of `rdx` characters at `rsi`, or `sys_exit` with status `rdi`. */
  function Sys(data: seq<DataLine>, st: State): State
  {
    if st.rax == W(60) && st.rdi.W? then Halt(st, Exited(st.rdi.w))
    else if st.rax == W(1) && st.rdi == W(1) && st.rsi.Ptr? && st.rdx.W? then
      var d := Lookup(data, st.rsi.sym);
      if d.Some? && st.rdx.w <= |Contents(d.value)| then st.(out := st.out + Contents(d.value)[..st.rdx.w])
      else Halt(st, Stuck)
    else Halt(st, Stuck)
  }

  /** One line of the text section. */
  function Exec(data: seq<DataLine>, st: State, l: Line): State
  {
    match l
    case Comment(_) => st
    case Blank => st
    case Ins(op, args) =>
      if op == "mov" && |args| == 2 && args[0].Reg? && IsGpr(args[0].name) then
        match args[1]
        case Imm(n) => Set(st, args[0].name, W(Wrap(n)))
        case Sym(s) => Set(st, args[0].name, Ptr(s))
        case Reg(r) => if IsGpr(r) then Set(st, args[0].name, Get(st, r)) else Halt(st, Stuck)
        case BytePtr(_) => Halt(st, Stuck)
      else if op == "push" && args == [Reg("rax")] then st.(stack := st.stack + [st.rax])
      else if op == "pop" && args == [Reg("rbx")] then
        if st.stack == [] then Halt(st, Fault)
        else st.(rbx := st.stack[|st.stack| - 1], stack := st.stack[..|st.stack| - 1])
      else if (op == "add" || op == "sub" || op == "imul") && args == [Reg("rax"), Reg("rbx")] then Arith(st, op)
      else if op == "xor" && |args| == 2 && args[0].Reg? && IsGpr(args[0].name) && args[1] == args[0] then
        Set(st, args[0].name, W(0))
      else if op == "div" && args == [Reg("rbx")] then DivUnsigned(st)
      else if op == "cqo" && args == [] then
        if st.rax.W? then st.(rdx := W(if st.rax.w >= Half then Modulus - 1 else 0)) else Halt(st, Stuck)
      else if op == "idiv" && args == [Reg("rbx")] then DivSigned(st)
      else if op == "cmp" && args == [Reg("rax"), Reg("rbx")] then
        if st.rax.W? && st.rbx.W? then st.(cmpLeft := Signed(st.rax.w), cmpRight := Signed(st.rbx.w))
        else Halt(st, Stuck)
      else if IsSet(op) && args == [Reg("al")] then
        if st.rax.W? then
          st.(rax := W(st.rax.w - st.rax.w % 256 + (if Condition(op, st.cmpLeft, st.cmpRight) then 1 else 0)))
        else Halt(st, Stuck)
      else if op == "movzx" && args == [Reg("rax"), Reg("al")] then
        if st.rax.W? then st.(rax := W(st.rax.w % 256)) else Halt(st, Stuck)
      else if op == "syscall" && args == [] then Sys(data, st)
      else Halt(st, Stuck)
  }

  /** Runs the lines in order until the machine stops. */
  function Run(data: seq<DataLine>, code: seq<Line>, st: State): (r: State)
    ensures st.status != Running ==> r == st
    decreases |code|
  {
    if st.status != Running || code == [] then st
    else Run(data, code[1..], Exec(data, st, code[0]))
  }

  lemma {:induction false} RunAppend(data: seq<DataLine>, a: seq<Line>, b: seq<Line>, st: State)
    ensures Run(data, a + b, st) == Run(data, b, Run(data, a, st))
    decreases |a|
  {
    if st.status == Running && a != [] {
      assert (a + b)[1..] == a[1..] + b;
      RunAppend(data, a[1..], b, Exec(data, st, a[0]));
    } else if a == [] {
      assert a + b == b;
    }
  }
}
