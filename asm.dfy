/** Assembly as the code generator emits it: instructions and comments of the text
    section, definitions of the data section, and the fixed text around them. A
    line of the document is a string without its newline; every piece the generator
    appends ends in a newline, so the document is exactly its lines, each followed by
    one. Trailing `; ...` remarks after instructions are not kept. */
module Asm {
  import opened Wrappers
  import opened Text

  datatype Operand = Reg(name: string) | Imm(value: int) | Sym(sym: string) | BytePtr(reg: string)

  /** One line of the text section. */
  datatype Line = Comment(text: string) | Blank | Ins(op: string, args: seq<Operand>)

  /** One line of the data section: `sym db <q>text<q>[, 10], 0`, or a zeroed buffer
      `sym times n db 0`. */
  datatype DataLine = Define(sym: string, quote: char, text: string, newline: bool) | Zeros(sym: string, count: nat)

  function ShowOperand(a: Operand): string
  {
    match a
    case Reg(r) => r
    case Imm(n) => IntToString(n)
    case Sym(l) => l
    case BytePtr(r) => "byte [" + r + "]"
  }

  function ShowOperands(args: seq<Operand>): (r: seq<string>)
    ensures |r| == |args|
    ensures forall i :: 0 <= i < |args| ==> r[i] == ShowOperand(args[i])
  {
    if args == [] then [] else ShowOperands(args[..|args| - 1]) + [ShowOperand(args[|args| - 1])]
  }

  /** Every emitted text line but a blank one is indented by four spaces. */
  function RenderLine(l: Line): (s: string)
    ensures l.Blank? <==> s == []
    ensures !l.Blank? ==> |s| >= 4 && s[..4] == "    "
  {
    match l
    case Comment(t) => "    ; " + t
    case Blank => ""
    case Ins(op, args) =>
      "    " + op + (if args == [] then "" else " " + Join(ShowOperands(args), ", "))
  }

  function RenderText(ls: seq<Line>): (r: seq<string>)
    ensures |r| == |ls|
    ensures forall i :: 0 <= i < |ls| ==> r[i] == RenderLine(ls[i])
  {
    if ls == [] then [] else RenderText(ls[..|ls| - 1]) + [RenderLine(ls[|ls| - 1])]
  }

  function RenderDataLine(d: DataLine): string
  {
    match d
    case Define(sym, q, text, nl) => sym + " db " + [q] + text + [q] + (if nl then ", 10" else "") + ", 0"
    case Zeros(sym, n) => sym + " times " + NatToString(n) + " db 0"
  }

  function RenderData(ds: seq<DataLine>): (r: seq<string>)
    ensures |r| == |ds|
    ensures forall i :: 0 <= i < |ds| ==> r[i] == RenderDataLine(ds[i])
  {
    if ds == [] then [] else RenderData(ds[..|ds| - 1]) + [RenderDataLine(ds[|ds| - 1])]
  }

  function SymOf(d: DataLine): string
  {
    match d
    case Define(sym, _, _, _) => sym
    case Zeros(sym, _) => sym
  }

  /** The characters a definition places at its sym, the terminating zero included. */
  function Contents(d: DataLine): (s: string)
    ensures d.Define? ==> s == d.text + (if d.newline then "\n" else "") + "\0"
    ensures d.Zeros? ==> |s| == d.count
  {
    match d
    case Define(_, _, text, nl) => text + (if nl then "\n" else "") + "\0"
    case Zeros(_, n) => seq(n, _ => '\0')
  }

  /** The first definition of `sym`. */
  function Lookup(data: seq<DataLine>, sym: string): (r: Option<DataLine>)
    ensures r.Some? ==> SymOf(r.value) == sym && r.value in data
    ensures r.None? <==> forall i :: 0 <= i < |data| ==> SymOf(data[i]) != sym
  {
    if data == [] then None
    else if SymOf(data[0]) == sym then Some(data[0])
    else Lookup(data[1..], sym)
  }

  /** The buffers `generate_nasm` defines before anything else. */
  const InitialData: seq<DataLine> := [
    Define("digit_buffer", '\'', "00000000000", true),
    Zeros("str_buffer", 1024),
    Define("true_str", '\'', "true", true),
    Define("false_str", '\'', "false", true),
    Define("null_str", '\'', "null", true),
    Define("array_open", '\'', "[", false),
    Define("array_close", '\'', "]", true),
    Define("array_separator", '\'', ", ", false)
  ]

  const TextHeader: seq<string> := ["section .text", "global _start", "", "_start:"]

  /** The `print_number` routine, appended verbatim. */
  const PrintNumberRoutine: seq<string> := [
    "",
    "; Function to print a number in RAX",
    "print_number:",
    "mov rcx, digit_buffer",
    "add rcx, 10             ; Point to end of buffer (before newline)",
    "mov rbx, 10             ; Divisor",
    "mov rax, [rsp+8]        ; Get parameter (number to print)",
    "",
    "; Handle special case of 0",
    "test rax, rax",
    "jnz .convert_loop",
    "mov byte [rcx], '0'",
    "jmp .print_result",
    "",
    ".convert_loop:",
    "xor rdx, rdx",
    "div rbx                 ; Divide RAX by 10, remainder in RDX",
    "add dl, '0'             ; Convert to ASCII",
    "mov [rcx], dl           ; Store in buffer",
    "dec rcx                 ; Move pointer back",
    "test rax, rax",
    "jnz .convert_loop       ; Continue if quotient not zero",
    "",
    ".print_result:",
    "; Calculate string length",
    "mov rdx, digit_buffer",
    "add rdx, 11             ; Point to end of buffer (after newline)",
    "sub rdx, rcx            ; Calculate length",
    "inc rcx                 ; Adjust pointer back to first digit",
    "",
    "; Print the number",
    "mov rax, 1              ; sys_write",
    "mov rdi, 1              ; stdout",
    "mov rsi, rcx            ; Buffer pointer",
    "syscall",
    "ret"
  ]

  /** The `append_string` and `append_number` routines, appended verbatim. */
  const StringHelperRoutines: seq<string> := [
    "",
    "; Function to append a string to buffer",
    "append_string:",
    "; RSI = source string, RDI = destination buffer, RCX = current length",
    ".copy_loop:",
    "mov al, [rsi]          ; Get character from source",
    "test al, al            ; Check for null terminator",
    "jz .done               ; If null, we're done",
    "mov [rdi], al          ; Copy to destination",
    "inc rsi                ; Advance source pointer",
    "inc rdi                ; Advance destination pointer",
    "inc rcx                ; Increment length counter",
    "jmp .copy_loop         ; Continue loop",
    ".done:",
    "ret",
    "",
    "; Function to append a number to buffer",
    "append_number:",
    "; RAX = number to append, RDI = destination buffer, RCX = current length",
    "push rdi               ; Save destination pointer",
    "push rcx               ; Save length counter",
    "",
    "; Convert number to string in reverse order (in local buffer)",
    "mov r10, rsp           ; Use stack as temporary buffer",
    "sub rsp, 32            ; Allocate 32 bytes on stack",
    "mov r11, rsp           ; R11 = start of temp buffer",
    "mov r12, 10            ; Divisor = 10",
    "",
    "; Handle special case of 0",
    "test rax, rax",
    "jnz .convert_num_loop",
    "mov byte [r11], '0'    ; Store '0'",
    "inc r11                ; Advance pointer",
    "jmp .finish_num",
    "",
    ".convert_num_loop:",
    "xor rdx, rdx           ; Clear RDX for division",
    "div r12                ; Divide RAX by 10, remainder in RDX",
    "add dl, '0'            ; Convert to ASCII",
    "mov [r11], dl          ; Store in buffer",
    "inc r11                ; Advance pointer",
    "test rax, rax          ; Check if quotient is zero",
    "jnz .convert_num_loop  ; Continue if not",
    "",
    ".finish_num:",
    "mov byte [r11], 0      ; Add null terminator",
    "",
    "; Now copy the digits in reverse order to destination",
    "pop rcx                ; Restore length counter",
    "pop rdi                ; Restore destination pointer",
    "",
    ".copy_digits_loop:",
    "dec r11                ; Move back one character",
    "mov al, [r11]          ; Get digit",
    "test al, al            ; Check if it's the null terminator",
    "jz .copy_digits_done   ; If so, we're done",
    "mov [rdi], al          ; Copy to destination",
    "inc rdi                ; Advance destination pointer",
    "inc rcx                ; Increment length counter",
    "cmp r11, rsp           ; Check if we've reached the start of our buffer",
    "jne .copy_digits_loop  ; Continue if not",
    "",
    ".copy_digits_done:",
    "add rsp, 32            ; Free temporary buffer",
    "ret"
  ]

  function Mov(r: string, n: int): Line { Ins("mov", [Reg(r), Imm(n)]) }

  function MovSym(r: string, sym: string): Line { Ins("mov", [Reg(r), Sym(sym)]) }

  function MovReg(r: string, src: string): Line { Ins("mov", [Reg(r), Reg(src)]) }

  function Push(r: string): Line { Ins("push", [Reg(r)]) }

  function Pop(r: string): Line { Ins("pop", [Reg(r)]) }

  function Call(sym: string): Line { Ins("call", [Sym(sym)]) }

  function Syscall(): Line { Ins("syscall", []) }

  /** `sys_write(1, sym, len)` followed by a blank line. */
  function WriteCall(sym: string, len: int): seq<Line>
  {
    [Mov("rax", 1), Mov("rdi", 1), MovSym("rsi", sym), Mov("rdx", len), Syscall(), Blank]
  }

  /** `sys_exit` with the status already in `rdi`. */
  function ExitCall(): seq<Line>
  {
    [Mov("rax", 60), Syscall(), Blank]
  }

  /** Passes `rax` to `print_number` on the stack and drops it again. */
  function PrintNumberCall(): seq<Line>
  {
    [Push("rax"), Call("print_number"), Ins("add", [Reg("rsp"), Imm(8)])]
  }
}
