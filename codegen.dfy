/** What `generate_nasm` and its helpers compute, as functions: the literal
    collection pass, the classifier for string expressions, the three code emitters,
    the lowering of each statement, and the assembly of the final document. A
    `panic!` of the generator is an `Err` carrying the reason. */
module CodeGen {
  import opened Wrappers
  import opened Text
  import opened Ast
  import V = Values
  import opened Asm

  /** The reasons `generate_nasm` panics. */
  datatype Fault =
    | StringNotFound(text: string)
    | UndefinedVariable(name: string)
    | UndefinedInExit(name: string)
    | NonNumericExit(name: string)
    | NonNumericOperand(name: string)
    | ConstRedeclared(name: string)
    | NonLiteralConst
    | NonLiteralArrayElement
    | StringOperation
    | UnsupportedInConcat
    | UnsupportedInCodegen

  /** `(label, text)` pairs of the string literals. */
  type Labels = seq<(string, string)>

  type Constants = map<string, V.ConstValue>

  type Code = Result<seq<Line>, Fault>

  /** The first error of two emitters run one after the other, or both outputs. */
  function Then(a: Code, b: Code): (r: Code)
    ensures r.Ok? <==> a.Ok? && b.Ok?
    ensures r.Ok? ==> r.value == a.value + b.value
    ensures a.Err? ==> r == a
    ensures a.Ok? && b.Err? ==> r == b
  {
    if a.Err? then a else if b.Err? then b else Ok(a.value + b.value)
  }

  // ---------------------------------------------------------------------------
  // collect_string_literals

  /** Pair `i` is the first whose text is `s`, and its label is `sym`. */
  predicate FirstWith(labels: Labels, i: int, sym: string, s: string)
  {
    0 <= i < |labels| && labels[i] == (sym, s) && forall j :: 0 <= j < i ==> labels[j].1 != s
  }

  /** The label of the first pair whose text is `s`. */
  function FindLabel(labels: Labels, s: string): (r: Option<string>)
    ensures r.None? <==> forall i :: 0 <= i < |labels| ==> labels[i].1 != s
    ensures r.Some? ==> exists i :: FirstWith(labels, i, r.value, s)
  {
    if labels == [] then None
    else if labels[0].1 == s then assert FirstWith(labels, 0, labels[0].0, s); Some(labels[0].0)
    else
      var r := FindLabel(labels[1..], s);
      if r.Some? then
        var i :| FirstWith(labels[1..], i, r.value, s);
        assert labels[i + 1] == (r.value, s);
        forall j | 0 <= j < i + 1 ensures labels[j].1 != s {
          if j > 0 { assert labels[j] == labels[1..][j - 1]; }
        }
        assert FirstWith(labels, i + 1, r.value, s);
        r
      else
        assert forall i :: 1 <= i < |labels| ==> labels[i] == labels[1..][i - 1];
        r
  }

  /** The state `collect_string_literals` threads through the walk. */
  datatype Collection = Collection(labels: Labels, counter: nat, data: seq<DataLine>)

  function MsgLabel(k: nat): string { "msg" + NatToString(k) }

  /** One literal: a new text gets label `msg<counter>` and a data definition; a text
      seen before changes nothing. */
  function AddLiteral(c: Collection, s: string): (r: Collection)
    ensures FindLabel(c.labels, s).Some? ==> r == c
    ensures FindLabel(c.labels, s).None? ==>
      r == Collection(c.labels + [(MsgLabel(c.counter), s)], c.counter + 1,
                      c.data + [Define(MsgLabel(c.counter), '"', s, false)])
  {
    if FindLabel(c.labels, s).Some? then c
    else
      var sym := MsgLabel(c.counter);
      Collection(c.labels + [(sym, s)], c.counter + 1, c.data + [Define(sym, '"', s, false)])
  }

  /** The walk of `collect_string_literals`: into `Print`, `Exit`, `Const` values,
      both operands of every operator and every array element, nowhere else. */
  function Collect(e: Expr, c: Collection): (r: Collection)
    ensures c.labels <= r.labels && c.data <= r.data
    ensures r.counter - c.counter == |r.labels| - |c.labels| == |r.data| - |c.data|
    decreases e, 1
  {
    match e
    case StringLiteral(s) => AddLiteral(c, s)
    case Print(inner) => Collect(inner, c)
    case Exit(inner) => Collect(inner, c)
    case Const(_, value) => Collect(value, c)
    case BinaryOp(_, l, r) => Collect(r, Collect(l, c))
    case Array(elements) => CollectAll(elements, c)
    case _ => c
  }

  /** `for e in es { collect_string_literals(e, ...) }`. */
  function CollectAll(es: seq<Expr>, c: Collection): (r: Collection)
    ensures c.labels <= r.labels && c.data <= r.data
    ensures r.counter - c.counter == |r.labels| - |c.labels| == |r.data| - |c.data|
    decreases es, 0
  {
    if es == [] then c else CollectAll(es[1..], Collect(es[0], c))
  }

  // ---------------------------------------------------------------------------
  // is_string_expr

  /** A string literal, a name bound to a string constant, or a `+` with such an
      operand. */
  predicate IsStringExpr(e: Expr, consts: Constants)
  {
    match e
    case StringLiteral(_) => true
    case Variable(name) => name in consts && consts[name].String?
    case BinaryOp(op, l, r) => op == Add && (IsStringExpr(l, consts) || IsStringExpr(r, consts))
    case _ => false
  }

  // ---------------------------------------------------------------------------
  // generate_expression_code

  /** How division is lowered: `xor rdx, rdx; div rbx` as written, or the signed
      `cqo; idiv rbx`. */
  datatype DivLowering = UnsignedDiv | SignedDiv

  function Op2(op: string, a: string, b: string): Line { Ins(op, [Reg(a), Reg(b)]) }

  function SetName(op: BinOp): string
  {
    match op
    case Equal => "sete"
    case NotEqual => "setne"
    case Lt => "setl"
    case Gt => "setg"
    case Lte => "setle"
    case _ => "setge"
  }

  /** The instructions for `rax := rax op rbx`. */
  function OpCode(op: BinOp, div: DivLowering): seq<Line>
  {
    match op
    case Add => [Op2("add", "rax", "rbx")]
    case Sub => [Op2("sub", "rax", "rbx")]
    case Mul => [Op2("imul", "rax", "rbx")]
    case Div =>
      if div == UnsignedDiv then [Op2("xor", "rdx", "rdx"), Ins("div", [Reg("rbx")])]
      else [Ins("cqo", []), Ins("idiv", [Reg("rbx")])]
    case _ => [Op2("cmp", "rax", "rbx"), Ins(SetName(op), [Reg("al")]), Op2("movzx", "rax", "al")]
  }

  function BoolInt(b: bool): int { if b then 1 else 0 }

  /** Code leaving the value of `e` in `rax`: a leaf is one `mov`; an operator node
      evaluates the right operand, pushes it, evaluates the left one, pops the right
      one into `rbx` and applies the operator. */
  function ExprCode(e: Expr, consts: Constants, div: DivLowering): Code
    decreases e
  {
    match e
    case Number(n) => Ok([Mov("rax", n)])
    case Variable(name) =>
      if name !in consts then Err(UndefinedVariable(name))
      else if consts[name].Number? then Ok([Mov("rax", consts[name].n)])
      else if consts[name].Boolean? then Ok([Mov("rax", BoolInt(consts[name].b))])
      else Err(NonNumericOperand(name))
    case BinaryOp(op, l, r) =>
      if op == Add && (IsStringExpr(l, consts) || IsStringExpr(r, consts)) then Err(StringOperation)
      else
        Then(Then(Then(ExprCode(r, consts, div), Ok([Push("rax")])), ExprCode(l, consts, div)),
             Ok([Pop("rbx")] + OpCode(op, div)))
    case Boolean(b) => Ok([Mov("rax", BoolInt(b))])
    case _ => Err(UnsupportedInCodegen)
  }

  // ---------------------------------------------------------------------------
  // generate_string_concat

  function AppendString(sym: string): seq<Line> { [MovSym("rsi", sym), Call("append_string")] }

  function AppendNumber(n: int): seq<Line> { [Mov("rax", n), Call("append_number")] }

  function BoolSym(b: bool): string { if b then "true_str" else "false_str" }

  /** The append block of one operand that is not itself a `+`. */
  function LeafConcatCode(e: Expr, consts: Constants, labels: Labels): Code
  {
    match e
    case StringLiteral(s) =>
      if FindLabel(labels, s).None? then Err(StringNotFound(s))
      else Ok([Comment("Append string: " + s)] + AppendString(FindLabel(labels, s).value))
    case Number(n) => Ok([Comment("Append number: " + IntToString(n))] + AppendNumber(n))
    case Float(f) =>
      Ok([Comment("Append float: " + f.text)] + AppendString("float_concat_" + ReplaceChar(f.text, '.', '_')))
    case Boolean(b) => Ok([Comment("Append boolean: " + V.BoolText(b))] + AppendString(BoolSym(b)))
    case Variable(name) =>
      if name !in consts then Err(UndefinedVariable(name))
      else
        (match consts[name]
        case Number(n) => Ok([Comment("Append numeric variable: " + name)] + AppendNumber(n))
        case Float(_) => Ok([Comment("Append float variable: " + name)] + AppendString("float_var_" + name))
        case String(_) => Ok([Comment("Append string variable: " + name)] + AppendString("var_" + name))
        case Boolean(b) => Ok([Comment("Append boolean variable: " + name)] + AppendString(BoolSym(b)))
        case Array(_) =>
          Ok([Comment("Append array variable: " + name)] + AppendString("array_open") + AppendString("array_close"))
        case Null => Ok([Comment("Append null variable: " + name)] + AppendString("null_str")))
    case _ => Err(UnsupportedInConcat)
  }

  /** `generate_string_concat`: a `+` node appends its left then its right operand. */
  function ConcatCode(e: Expr, consts: Constants, labels: Labels): Code
    decreases e
  {
    if e.BinaryOp? && e.op == Add then
      Then(ConcatCode(e.left, consts, labels), ConcatCode(e.right, consts, labels))
    else LeafConcatCode(e, consts, labels)
  }

  // ---------------------------------------------------------------------------
  // generate_print_expr

  /** Prints an array element: strings and booleans without a newline, numbers and
      anything else through `print_number`. */
  function ElementCode(e: Expr, consts: Constants, labels: Labels, div: DivLowering): Code
  {
    match e
    case StringLiteral(s) =>
      if FindLabel(labels, s).None? then Err(StringNotFound(s))
      else Ok([Comment("Print string: " + s)] + WriteCall(FindLabel(labels, s).value, Utf8Length(s)))
    case Number(n) => Ok([Comment("Print number: " + IntToString(n)), Mov("rax", n)] + PrintNumberCall())
    case Boolean(b) => Ok([Comment("Print boolean: " + V.BoolText(b))] + WriteCall(BoolSym(b), if b then 4 else 5))
    case _ =>
      Then(Then(Ok([Comment("Print expression result")]), ExprCode(e, consts, div)), Ok(PrintNumberCall()))
  }

  // ---------------------------------------------------------------------------
  // The statement loop of generate_nasm

  /** What lowering one `print` adds: text lines, data lines, and how many labels it
      takes from the counter. */
  datatype Emitted = Emitted(code: seq<Line>, data: seq<DataLine>, used: nat)

  function CodeOnly(c: Code): Result<Emitted, Fault>
  {
    if c.Err? then Err(c.error) else Ok(Emitted(c.value, [], 0))
  }

  function ArrayWrite(sym: string, len: int): seq<Line> { WriteCall(sym, len) }

  /** The loop over array elements: each element, then a separator after every
      element but the last. */
  function ElementsCode(es: seq<Expr>, consts: Constants, labels: Labels, div: DivLowering): Code
  {
    ElementsFrom(es, 0, consts, labels, div)
  }

  function ElementsFrom(es: seq<Expr>, i: nat, consts: Constants, labels: Labels, div: DivLowering): Code
    requires i <= |es|
    decreases |es| - i
  {
    if i == |es| then Ok([])
    else
      Then(Then(ElementCode(es[i], consts, labels, div),
                Ok(if i < |es| - 1 then WriteCall("array_separator", 2) else [])),
           ElementsFrom(es, i + 1, consts, labels, div))
  }

  /** Points `rdi` at `str_buffer` and clears the length in `rcx`. */
  function ConcatStart(): seq<Line>
  {
    [Comment("String concatenation"), MovSym("rdi", "str_buffer"), Op2("xor", "rcx", "rcx"), Blank]
  }

  /** Terminates the buffer and writes it. */
  function ConcatFinish(): seq<Line>
  {
    [Ins("mov", [BytePtr("rdi"), Imm(10)]), Ins("inc", [Reg("rdi")]), Ins("mov", [BytePtr("rdi"), Imm(0)]),
     Mov("rax", 1), Mov("rdi", 1), MovSym("rsi", "str_buffer"), MovReg("rdx", "rcx"),
     Ins("add", [Reg("rdx"), Imm(1)]), Syscall(), Blank]
  }

  /** Prints an array literal: the brackets around the elements. */
  function ArrayPrintCode(elements: seq<Expr>, consts: Constants, labels: Labels, div: DivLowering): Code
  {
    Then(Then(Ok([Comment("Print array")] + WriteCall("array_open", 1)), ElementsCode(elements, consts, labels, div)),
         Ok(WriteCall("array_close", 2)))
  }

  /** Prints the value of a `+` tree with a string operand through `str_buffer`. */
  function ConcatPrintCode(l: Expr, r: Expr, consts: Constants, labels: Labels): Code
  {
    Then(Then(Ok(ConcatStart()), Then(ConcatCode(l, consts, labels), ConcatCode(r, consts, labels))),
         Ok(ConcatFinish()))
  }

  /** Prints a numeric expression through `print_number`. */
  function NumericPrintCode(note: string, e: Expr, consts: Constants, div: DivLowering): Code
  {
    Then(Then(Ok([Comment(note)]), ExprCode(e, consts, div)), Ok(PrintNumberCall() + [Blank]))
  }

  function VarSym(name: string): string { "var_" + name }

  /** A `print` of a name bound by `const`. */
  function PrintVariable(name: string, consts: Constants): Result<Emitted, Fault>
  {
    if name !in consts then Err(UndefinedVariable(name))
    else
      match consts[name]
      case Number(n) =>
        var text := IntToString(n);
        Ok(Emitted([Comment("Print numeric variable: " + name)] + WriteCall(VarSym(name), |text| + 1),
                   [Define(VarSym(name), '"', text, true)], 0))
      case Float(f) =>
        Ok(Emitted([Comment("Print float variable: " + name)] + WriteCall(VarSym(name), Utf8Length(f.text) + 1),
                   [Define(VarSym(name), '"', f.text, true)], 0))
      case String(s) =>
        Ok(Emitted([Comment("Print string variable: " + name)] + WriteCall(VarSym(name), Utf8Length(s) + 1), [], 0))
      case Boolean(b) =>
        Ok(Emitted([Comment("Print boolean variable: " + name)] + WriteCall(BoolSym(b), if b then 5 else 6), [], 0))
      case Array(_) =>
        Ok(Emitted([Comment("Print array variable: " + name)] + WriteCall(VarSym(name) + "_label", 8),
                   [Define(VarSym(name) + "_label", '"', "[Array]", true)], 0))
      case Null =>
        Ok(Emitted([Comment("Print null variable: " + name)] + WriteCall("null_str", 5), [], 0))
  }

  /** The lowering of `print inner`; `counter` numbers the labels of printed number
      and float literals. */
  function PrintStmt(inner: Expr, counter: nat, consts: Constants, labels: Labels, div: DivLowering): Result<Emitted, Fault>
  {
    match inner
    case StringLiteral(s) =>
      if FindLabel(labels, s).None? then Err(StringNotFound(s))
      else Ok(Emitted([Comment("Print: " + s)] + WriteCall(FindLabel(labels, s).value, Utf8Length(s) + 1), [], 0))
    case Boolean(b) =>
      Ok(Emitted([Comment("Print boolean: " + V.BoolText(b))] + WriteCall(BoolSym(b), if b then 5 else 6), [], 0))
    case Null => Ok(Emitted([Comment("Print null")] + WriteCall("null_str", 5), [], 0))
    case Array(elements) => CodeOnly(ArrayPrintCode(elements, consts, labels, div))
    case Variable(name) => PrintVariable(name, consts)
    case Number(n) =>
      var sym := "num" + NatToString(counter);
      var text := IntToString(n);
      Ok(Emitted([Comment("Print number: " + text)] + WriteCall(sym, |text| + 1), [Define(sym, '"', text, true)], 1))
    case Float(f) =>
      var sym := "float" + NatToString(counter);
      Ok(Emitted([Comment("Print float: " + f.text)] + WriteCall(sym, Utf8Length(f.text) + 1),
                 [Define(sym, '"', f.text, true)], 1))
    case BinaryOp(op, l, r) =>
      if op == Add && (IsStringExpr(l, consts) || IsStringExpr(r, consts)) then
        CodeOnly(ConcatPrintCode(l, r, consts, labels))
      else if op == Add then
        CodeOnly(NumericPrintCode("Print numeric expression result", inner, consts, div))
      else
        CodeOnly(NumericPrintCode("Print expression result", inner, consts, div))
    case _ => CodeOnly(NumericPrintCode("Print expression result", inner, consts, div))
  }

  /** The lowering of `exit(code)`. */
  function ExitStmt(code: Expr, consts: Constants, div: DivLowering): Code
  {
    match code
    case Number(n) => Ok([Comment("Exit program"), Mov("rax", 60), Mov("rdi", n), Syscall(), Blank])
    case Variable(name) =>
      if name !in consts then Err(UndefinedInExit(name))
      else if consts[name].Number? then
        Ok([Comment("Exit program with constant " + name), Mov("rax", 60), Mov("rdi", consts[name].n), Syscall(), Blank])
      else if consts[name].Boolean? then
        Ok([Comment("Exit program with boolean constant " + name), Mov("rax", 60),
            Mov("rdi", BoolInt(consts[name].b)), Syscall(), Blank])
      else Err(NonNumericExit(name))
    case _ =>
      Then(Then(Ok([Comment("Exit program with expression result")]), ExprCode(code, consts, div)),
           Ok([MovReg("rdi", "rax")] + ExitCall()))
  }

  /** The value of an array element in a `const` declaration: scalar literals only. */
  function ElementValue(e: Expr): Result<V.ConstValue, Fault>
  {
    match e
    case Number(n) => Ok(V.Number(n))
    case Float(f) => Ok(V.Float(f))
    case StringLiteral(s) => Ok(V.String(s))
    case Boolean(b) => Ok(V.Boolean(b))
    case Null => Ok(V.Null)
    case _ => Err(NonLiteralArrayElement)
  }

  /** `for elem in elements { values.push(...) }`, stopping at the first non-literal. */
  function ElementValues(es: seq<Expr>): (r: Result<seq<V.ConstValue>, Fault>)
    ensures r.Ok? ==> |r.value| == |es|
  {
    if es == [] then Ok([])
    else
      var first := ElementValue(es[0]);
      if first.Err? then Err(first.error)
      else
        var rest := ElementValues(es[1..]);
        if rest.Err? then rest else Ok([first.value] + rest.value)
  }

  /** What a `const` declaration adds: the binding, the comment line, and the data
      line of a string constant. */
  datatype Declared = Declared(value: V.ConstValue, note: string, data: seq<DataLine>)

  function ConstValueOf(name: string, value: Expr): Result<Declared, Fault>
  {
    match value
    case Number(n) => Ok(Declared(V.Number(n), IntToString(n), []))
    case Float(f) => Ok(Declared(V.Float(f), f.text, []))
    case StringLiteral(s) => Ok(Declared(V.String(s), "\"" + s + "\"", [Define(VarSym(name), '"', s, true)]))
    case Boolean(b) => Ok(Declared(V.Boolean(b), V.BoolText(b), []))
    case Array(elements) =>
      var vs := ElementValues(elements);
      if vs.Err? then Err(vs.error)
      else Ok(Declared(V.Array(vs.value), "[array with " + NatToString(|elements|) + " elements]", []))
    case Null => Ok(Declared(V.Null, "null", []))
    case _ => Err(NonLiteralConst)
  }

  /** The declaration forms `generate_nasm` accepts, checked for redeclaration first. */
  predicate IsLiteralForm(value: Expr)
  {
    value.Number? || value.Float? || value.StringLiteral? || value.Boolean? || value.Array? || value.Null?
  }

  /** The mutable locals of `generate_nasm` during the statement loop. */
  datatype Gen = Gen(data: seq<DataLine>, text: seq<Line>, counter: nat, consts: Constants)

  /** The lowering of `const name = value;`. */
  function ConstStmt(g: Gen, name: string, value: Expr): Result<Gen, Fault>
  {
    if IsLiteralForm(value) && name in g.consts then Err(ConstRedeclared(name))
    else
      var d := ConstValueOf(name, value);
      if d.Err? then Err(d.error)
      else
        Ok(Gen(g.data + d.value.data, g.text + [Comment("Constant " + name + " = " + d.value.note)], g.counter,
               g.consts[name := d.value.value]))
  }

  /** One iteration of the statement loop; other top-level forms are ignored. */
  function Step(g: Gen, stmt: Expr, labels: Labels, div: DivLowering): Result<Gen, Fault>
  {
    match stmt
    case Print(inner) =>
      var em := PrintStmt(inner, g.counter, g.consts, labels, div);
      if em.Err? then Err(em.error)
      else Ok(Gen(g.data + em.value.data, g.text + em.value.code, g.counter + em.value.used, g.consts))
    case Exit(code) =>
      var c := ExitStmt(code, g.consts, div);
      if c.Err? then Err(c.error) else Ok(g.(text := g.text + c.value))
    case Const(name, value) => ConstStmt(g, name, value)
    case _ => Ok(g)
  }

  /** The statement loop, from the first statement to the last. */
  function StatementLoop(stmts: seq<Expr>, g: Gen, labels: Labels, div: DivLowering): Result<Gen, Fault>
    decreases |stmts|
  {
    if stmts == [] then Ok(g)
    else
      var next := Step(g, stmts[0], labels, div);
      if next.Err? then next else StatementLoop(stmts[1..], next.value, labels, div)
  }

  predicate HasExit(stmts: seq<Expr>)
  {
    exists i :: 0 <= i < |stmts| && stmts[i].Exit?
  }

  function DefaultExit(): seq<Line>
  {
    [Comment("Default exit"), Mov("rax", 60), Op2("xor", "rdi", "rdi"), Syscall()]
  }

  /** The data section as a block of the document. */
  function DataBlock(data: seq<DataLine>): seq<string>
  {
    ["section .data"] + RenderData(data) + [""]
  }

  /** The document as `generate_nasm` builds it: the data section as it stood after
      literal collection, the text header, the text section, then the routines. The
      data section is re-inserted only if the document lacks `section .data`. */
  function Assemble(collected: seq<DataLine>, data: seq<DataLine>, text: seq<Line>): seq<string>
  {
    var head := (if collected != [] then DataBlock(collected) else []) + TextHeader;
    var head' := if data != [] && !AnyLineContains(head, "section .data") then DataBlock(data) + head else head;
    head' + RenderText(text) + PrintNumberRoutine + StringHelperRoutines
  }

  /** The document with the data section as it stands after the statement loop. */
  function AssembleFixed(data: seq<DataLine>, text: seq<Line>): seq<string>
  {
    DataBlock(data) + TextHeader + RenderText(text) + PrintNumberRoutine + StringHelperRoutines
  }

  /** Everything `generate_nasm` decides, before rendering. */
  datatype Output = Output(collected: seq<DataLine>, final: Gen)

  function Compile(stmts: seq<Expr>, div: DivLowering): Result<Output, Fault>
  {
    var c := CollectAll(stmts, Collection([], 0, InitialData));
    var run := StatementLoop(stmts, Gen(c.data, [], c.counter, map[]), c.labels, div);
    if run.Err? then Err(run.error)
    else
      var g := run.value;
      Ok(Output(c.data, g.(text := g.text + if HasExit(stmts) then [] else DefaultExit())))
  }

  /** `generate_nasm(exprs)`: the returned document, or the panic. */
  function Generated(stmts: seq<Expr>): Result<seq<string>, Fault>
  {
    var out := Compile(stmts, UnsignedDiv);
    if out.Err? then Err(out.error) else Ok(Assemble(out.value.collected, out.value.final.data, out.value.final.text))
  }

  /** The document with the data section kept whole and signed division. */
  function GeneratedFixed(stmts: seq<Expr>): Result<seq<string>, Fault>
  {
    var out := Compile(stmts, SignedDiv);
    if out.Err? then Err(out.error) else Ok(AssembleFixed(out.value.final.data, out.value.final.text))
  }
}
