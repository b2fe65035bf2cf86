/** `generate_nasm` and its helpers as the step-by-step code they are: an `Emitter`
    holds the mutable locals (the data and text sections, the literal labels, the
    label counter and the constants table), and each helper appends to them. Every
    method is proved to leave exactly the state the functions of `CodeGen` describe;
    a `panic!` ends the method with the fault it reports. */
module Generator {
  import opened Wrappers
  import opened Text
  import opened Ast
  import V = Values
  import opened Asm
  import opened CodeGen
  import CodeGenFacts

  /** An emitter that ran `c`: on success the buffer grew by `c`'s lines and no fault
      was reported; otherwise the fault is `c`'s. */
  predicate Appended(c: Code, before: seq<Line>, after: seq<Line>, fault: Option<Fault>)
  {
    if c.Ok? then fault.None? && after == before + c.value else fault == Some(c.error)
  }

  /** Two emitters in a row: the buffer grows by the code of the first, then by that
      of the second. */
  lemma AppendedThen(c1: Code, c2: Code, t0: seq<Line>, t1: seq<Line>, t2: seq<Line>, fault: Option<Fault>)
    requires Appended(c1, t0, t1, None) && Appended(c2, t1, t2, fault)
    ensures Appended(Then(c1, c2), t0, t2, fault)
  {
    if c2.Ok? {
      AppendAssoc3(t0, c1.value, c2.value);
    }
  }

  /** A fault of the first of two emitters is the fault of both. */
  lemma AppendedStops(c1: Code, c2: Code, t0: seq<Line>, t1: seq<Line>, fault: Option<Fault>)
    requires Appended(c1, t0, t1, fault) && fault.Some?
    ensures Appended(Then(c1, c2), t0, t1, fault)
  {
  }

  /** A statement lowering that ran `r`: on success the state is `r`'s. */
  predicate Reached(r: Result<Gen, Fault>, g: Gen, fault: Option<Fault>)
  {
    if r.Ok? then fault.None? && g == r.value else fault == Some(r.error)
  }

  /** One element of a printed array: its code and its separator move from the
      code still to come to the buffer. */
  lemma ElementsStep(elements: seq<Expr>, i: nat, consts: Constants, labels: Labels, div: DivLowering,
                     before: seq<Line>)
    requires i < |elements|
    ensures var c := ElementCode(elements[i], consts, labels, div);
      c.Err? ==> ElementsFrom(elements, i, consts, labels, div) == Err(c.error)
    ensures var c := ElementCode(elements[i], consts, labels, div);
      c.Ok? ==>
        Then(Ok(before), ElementsFrom(elements, i, consts, labels, div))
        == Then(Ok(before + c.value + (if i < |elements| - 1 then WriteCall("array_separator", 2) else [])),
                ElementsFrom(elements, i + 1, consts, labels, div))
  {
    var c := ElementCode(elements[i], consts, labels, div);
    var sep := if i < |elements| - 1 then WriteCall("array_separator", 2) else [];
    var rest := ElementsFrom(elements, i + 1, consts, labels, div);
    assert ElementsFrom(elements, i, consts, labels, div) == Then(Then(c, Ok(sep)), rest);
    if c.Ok? && rest.Ok? {
      assert before + (c.value + sep + rest.value) == before + c.value + sep + rest.value;
    }
  }

  /** Code run between fixed lines `before` and `after`: the buffer ends as `Then`
      of the three says, and a fault of the middle part is the fault of the whole. */
  lemma Enclosed(c: Code, before: seq<Line>, after: seq<Line>, t0: seq<Line>, t1: seq<Line>, fault: Option<Fault>)
    requires Appended(c, t0 + before, t1, fault)
    ensures fault.None? ==> Appended(Then(Then(Ok(before), c), Ok(after)), t0, t1 + after, fault)
    ensures fault.Some? ==> Appended(Then(Then(Ok(before), c), Ok(after)), t0, t1, fault)
  {
    if c.Ok? {
      assert t1 + after == t0 + (before + c.value + after);
    }
  }

  /** A `print` lowering that ran `em`: on success its lines were appended to both
      sections and the counter advanced by the labels it took. */
  predicate Printed(em: Result<Emitted, Fault>, g0: Gen, g: Gen, fault: Option<Fault>)
  {
    if em.Ok? then
      fault.None? && g == Gen(g0.data + em.value.data, g0.text + em.value.code, g0.counter + em.value.used, g0.consts)
    else fault == Some(em.error)
  }

  class Emitter {
    var data: seq<DataLine>
    var text: seq<Line>
    var labels: Labels
    var counter: nat
    var consts: Constants
    const div: DivLowering

    /** The locals as `generate_nasm` sets them up: the fixed buffers in the data
        section and everything else empty. */
    constructor (div: DivLowering)
      ensures data == InitialData && text == [] && labels == [] && counter == 0 && consts == map[]
      ensures this.div == div
    {
      data := InitialData;
      text := [];
      labels := [];
      counter := 0;
      consts := map[];
      this.div := div;
    }

    function Collected(): Collection
      reads this
    {
      Collection(labels, counter, data)
    }

    function State(): Gen
      reads this
    {
      Gen(data, text, counter, consts)
    }

    /** `string_labels.iter().find(|(_, str)| str == s)`. */
    method FindLabelOf(s: string) returns (r: Option<string>)
      ensures r == FindLabel(labels, s)
    {
      var i := 0;
      while i < |labels|
        invariant 0 <= i <= |labels|
        invariant FindLabel(labels[i..], s) == FindLabel(labels, s)
      {
        if labels[i].1 == s {
          return Some(labels[i].0);
        }
        assert labels[i..][1..] == labels[i + 1..];
        i := i + 1;
      }
      return None;
    }

    /** `collect_string_literals(e, &mut string_labels, &mut string_counter, &mut data_section)`. */
    method CollectStringLiterals(e: Expr)
      modifies this`labels, this`counter, this`data
      ensures Collected() == Collect(e, old(Collected()))
      decreases e
    {
      match e
      case StringLiteral(s) =>
        var found := FindLabelOf(s);
        if found.None? {
          var sym := "msg" + NatToString(counter);
          counter := counter + 1;
          labels := labels + [(sym, s)];
          data := data + [Define(sym, '"', s, false)];
        }
      case Print(inner) => CollectStringLiterals(inner);
      case Exit(inner) => CollectStringLiterals(inner);
      case Const(_, value) => CollectStringLiterals(value);
      case BinaryOp(_, l, r) =>
        CollectStringLiterals(l);
        CollectStringLiterals(r);
      case Array(elements) =>
        ghost var start := Collected();
        for i := 0 to |elements|
          invariant CollectAll(elements[i..], Collected()) == CollectAll(elements, start)
        {
          assert elements[i..][1..] == elements[i + 1..];
          CollectStringLiterals(elements[i]);
        }
      case _ =>
    }

    /** `generate_expression_code(e, &mut text_section, &constants)`. */
    method GenerateExpressionCode(e: Expr) returns (fault: Option<Fault>)
      modifies this`text
      ensures Appended(ExprCode(e, consts, div), old(text), text, fault)
      decreases e
    {
      match e
      case Number(n) =>
        text := text + [Mov("rax", n)];
        fault := None;
      case Variable(name) =>
        if name !in consts {
          return Some(UndefinedVariable(name));
        }
        var value := consts[name];
        if value.Number? {
          text := text + [Mov("rax", value.n)];
          fault := None;
        } else if value.Boolean? {
          text := text + [Mov("rax", if value.b then 1 else 0)];
          fault := None;
        } else {
          fault := Some(NonNumericOperand(name));
        }
      case BinaryOp(op, l, r) =>
        if op == Add && (IsStringExpr(l, consts) || IsStringExpr(r, consts)) {
          return Some(StringOperation);
        }
        ghost var rc, lc := ExprCode(r, consts, div), ExprCode(l, consts, div);
        ghost var push, tail := Ok([Push("rax")]), Ok([Pop("rbx")] + OpCode(op, div));
        ghost var t0 := text;
        fault := GenerateExpressionCode(r);
        if fault.Some? {
          AppendedStops(rc, push, t0, text, fault);
          AppendedStops(Then(rc, push), lc, t0, text, fault);
          AppendedStops(Then(Then(rc, push), lc), tail, t0, text, fault);
          return;
        }
        ghost var t1 := text;
        text := text + [Push("rax")];
        AppendedThen(rc, push, t0, t1, text, None);
        ghost var t2 := text;
        fault := GenerateExpressionCode(l);
        AppendedThen(Then(rc, push), lc, t0, t2, text, fault);
        if fault.Some? {
          AppendedStops(Then(Then(rc, push), lc), tail, t0, text, fault);
          return;
        }
        ghost var t3 := text;
        text := text + [Pop("rbx")] + OpCode(op, div);
        assert text == t3 + tail.value;
        AppendedThen(Then(Then(rc, push), lc), tail, t0, t3, text, None);
      case Boolean(b) =>
        text := text + [Mov("rax", if b then 1 else 0)];
        fault := None;
      case _ =>
        fault := Some(UnsupportedInCodegen);
    }

    /** `generate_string_concat(e, &mut text_section, &constants, &string_labels)`: a `+`
        node appends its left then its right operand; a string literal appends the text
        under its label. */
    method GenerateStringConcat(e: Expr) returns (fault: Option<Fault>)
      modifies this`text
      ensures Appended(ConcatCode(e, consts, labels), old(text), text, fault)
      decreases e
    {
      match e {
        case BinaryOp(op, l, r) =>
          if op != Add {
            return Some(UnsupportedInConcat);
          }
          fault := GenerateStringConcat(l);
          if fault.Some? {
            return;
          }
          fault := GenerateStringConcat(r);
          return;
        case StringLiteral(s) =>
          var found := FindLabelOf(s);
          if found.None? {
            return Some(StringNotFound(s));
          }
          text := text + ([Comment("Append string: " + s)] + AppendString(found.value));
        case Number(n) =>
          text := text + ([Comment("Append number: " + IntToString(n))] + AppendNumber(n));
        case Float(f) =>
          text := text + ([Comment("Append float: " + f.text)] + AppendString("float_concat_" + ReplaceChar(f.text, '.', '_')));
        case Boolean(b) =>
          text := text + ([Comment("Append boolean: " + V.BoolText(b))] + AppendString(BoolSym(b)));
        case Variable(name) =>
          fault := AppendConcatVariable(name);
          return;
        case _ =>
          return Some(UnsupportedInConcat);
      }
      fault := None;
    }

    /** The `Expr::Variable` arm of `generate_string_concat`: appends the constant by its kind. */
    method AppendConcatVariable(name: string) returns (fault: Option<Fault>)
      modifies this`text
      ensures Appended(LeafConcatCode(Variable(name), consts, labels), old(text), text, fault)
    {
      if name !in consts {
        return Some(UndefinedVariable(name));
      }
      match consts[name] {
        case Number(n) =>
          text := text + ([Comment("Append numeric variable: " + name)] + AppendNumber(n));
        case Float(_) =>
          text := text + ([Comment("Append float variable: " + name)] + AppendString("float_var_" + name));
        case String(_) =>
          text := text + ([Comment("Append string variable: " + name)] + AppendString("var_" + name));
        case Boolean(b) =>
          text := text + ([Comment("Append boolean variable: " + name)] + AppendString(BoolSym(b)));
        case Array(_) =>
          text := text + ([Comment("Append array variable: " + name)] + AppendString("array_open") + AppendString("array_close"));
        case Null =>
          text := text + ([Comment("Append null variable: " + name)] + AppendString("null_str"));
      }
      fault := None;
    }

    /** `generate_print_expr(e, &mut text_section, &constants, &string_labels)`, which
        prints one array element. */
    method GeneratePrintExpr(e: Expr) returns (fault: Option<Fault>)
      modifies this`text
      ensures Appended(ElementCode(e, consts, labels, div), old(text), text, fault)
    {
      match e
      case StringLiteral(s) =>
        var found := FindLabelOf(s);
        if found.None? {
          return Some(StringNotFound(s));
        }
        text := text + ([Comment("Print string: " + s)] + WriteCall(found.value, Utf8Length(s)));
        fault := None;
      case Number(n) =>
        text := text + ([Comment("Print number: " + IntToString(n)), Mov("rax", n)] + PrintNumberCall());
        fault := None;
      case Boolean(b) =>
        text := text + ([Comment("Print boolean: " + V.BoolText(b))] + WriteCall(BoolSym(b), if b then 4 else 5));
        fault := None;
      case _ =>
        fault := EmitElementValue(e);
    }

    /** An array element that is neither a literal string, number nor boolean: its value
        computed into `rax` and printed by `print_number`. */
    method EmitElementValue(e: Expr) returns (fault: Option<Fault>)
      modifies this`text
      ensures Appended(Then(Then(Ok([Comment("Print expression result")]), ExprCode(e, consts, div)), Ok(PrintNumberCall())),
                       old(text), text, fault)
    {
      ghost var head, ec, call := Ok([Comment("Print expression result")]), ExprCode(e, consts, div), Ok(PrintNumberCall());
      ghost var t0 := text;
      text := text + [Comment("Print expression result")];
      ghost var t1 := text;
      fault := GenerateExpressionCode(e);
      AppendedThen(head, ec, t0, t1, text, fault);
      if fault.Some? {
        AppendedStops(Then(head, ec), call, t0, text, fault);
        return;
      }
      ghost var t2 := text;
      text := text + PrintNumberCall();
      AppendedThen(Then(head, ec), call, t0, t2, text, None);
    }

    /** The elements of a printed array literal, with `array_separator` after every
        element but the last. */
    method PrintElements(elements: seq<Expr>) returns (fault: Option<Fault>)
      modifies this`text
      ensures Appended(ElementsCode(elements, consts, labels, div), old(text), text, fault)
    {
      ghost var t0 := text;
      for i := 0 to |elements|
        invariant Then(Ok(text), ElementsFrom(elements, i, consts, labels, div))
               == Then(Ok(t0), ElementsCode(elements, consts, labels, div))
      {
        ghost var before := text;
        fault := GeneratePrintExpr(elements[i]);
        ElementsStep(elements, i, consts, labels, div, before);
        if fault.Some? {
          return;
        }
        if i < |elements| - 1 {
          text := text + WriteCall("array_separator", 2);
        }
        assert text == before + ElementCode(elements[i], consts, labels, div).value
                       + (if i < |elements| - 1 then WriteCall("array_separator", 2) else []);
      }
      fault := None;
    }

    /** `print [e1, ..., en]`: the brackets around the elements. */
    method EmitArrayPrint(elements: seq<Expr>) returns (fault: Option<Fault>)
      modifies this`text
      ensures Appended(ArrayPrintCode(elements, consts, labels, div), old(text), text, fault)
    {
      text := text + ([Comment("Print array")] + WriteCall("array_open", 1));
      fault := PrintElements(elements);
      if fault.Some? {
        return;
      }
      text := text + WriteCall("array_close", 2);
    }

    /** `print l + r` with a string operand: the operands appended to `str_buffer`,
        which is then written. */
    method EmitConcatPrint(l: Expr, r: Expr) returns (fault: Option<Fault>)
      modifies this`text
      ensures Appended(ConcatPrintCode(l, r, consts, labels), old(text), text, fault)
    {
      ghost var t0 := text;
      text := text + ConcatStart();
      fault := EmitConcatOperands(l, r);
      Enclosed(Then(ConcatCode(l, consts, labels), ConcatCode(r, consts, labels)), ConcatStart(), ConcatFinish(),
               t0, text, fault);
      if fault.Some? {
        return;
      }
      text := text + ConcatFinish();
    }

    /** The two operands of the printed `+`, left then right. */
    method EmitConcatOperands(l: Expr, r: Expr) returns (fault: Option<Fault>)
      modifies this`text
      ensures Appended(Then(ConcatCode(l, consts, labels), ConcatCode(r, consts, labels)), old(text), text, fault)
    {
      ghost var t0 := text;
      fault := GenerateStringConcat(l);
      if fault.Some? {
        AppendedStops(ConcatCode(l, consts, labels), ConcatCode(r, consts, labels), t0, text, fault);
        return;
      }
      ghost var t1 := text;
      fault := GenerateStringConcat(r);
      AppendedThen(ConcatCode(l, consts, labels), ConcatCode(r, consts, labels), t0, t1, text, fault);
    }

    /** The `Expr::Print(inner)` arm of the statement loop. */
    method EmitPrint(inner: Expr) returns (fault: Option<Fault>)
      modifies this`text, this`data, this`counter
      ensures Printed(PrintStmt(inner, old(counter), consts, labels, div), old(State()), State(), fault)
    {
      match inner
      case StringLiteral(s) =>
        fault := EmitLiteralPrint(s);
      case Boolean(b) =>
        text := text + ([Comment("Print boolean: " + V.BoolText(b))] + WriteCall(BoolSym(b), if b then 5 else 6));
        fault := None;
      case Null =>
        text := text + ([Comment("Print null")] + WriteCall("null_str", 5));
        fault := None;
      case Array(elements) =>
        fault := EmitArrayPrint(elements);
      case Variable(name) =>
        fault := EmitVariablePrint(name);
      case Number(n) =>
        EmitNumberPrint(n);
        fault := None;
      case Float(f) =>
        EmitFloatPrint(f);
        fault := None;
      case BinaryOp(_, _, _) =>
        fault := EmitOperatorPrint(inner);
      case _ =>
        fault := EmitNumericPrint("Print expression result", inner);
    }

    /** `print "text"`: a write of the literal's label, which collection must have minted. */
    method EmitLiteralPrint(s: string) returns (fault: Option<Fault>)
      modifies this`text
      ensures Printed(PrintStmt(StringLiteral(s), counter, consts, labels, div), old(State()), State(), fault)
    {
      var found := FindLabelOf(s);
      if found.None? {
        return Some(StringNotFound(s));
      }
      text := text + ([Comment("Print: " + s)] + WriteCall(found.value, Utf8Length(s) + 1));
      fault := None;
    }

    /** `print n`: the decimal text goes to a fresh `num<k>` data line, which is then written. */
    method EmitNumberPrint(n: Int32)
      modifies this`text, this`data, this`counter
      ensures Printed(PrintStmt(Number(n), old(counter), consts, labels, div), old(State()), State(), None)
    {
      var sym := "num" + NatToString(counter);
      counter := counter + 1;
      var digits := IntToString(n);
      data := data + [Define(sym, '"', digits, true)];
      text := text + ([Comment("Print number: " + digits)] + WriteCall(sym, |digits| + 1));
    }

    /** `print f` for a float literal: as for a number, under a `float<k>` label. */
    method EmitFloatPrint(f: Float64)
      modifies this`text, this`data, this`counter
      ensures Printed(PrintStmt(Float(f), old(counter), consts, labels, div), old(State()), State(), None)
    {
      var sym := "float" + NatToString(counter);
      counter := counter + 1;
      data := data + [Define(sym, '"', f.text, true)];
      text := text + ([Comment("Print float: " + f.text)] + WriteCall(sym, Utf8Length(f.text) + 1));
    }

    /** `print name`: a write chosen by the kind of the constant `name` is bound to. Numbers,
        floats and arrays also get a `var_<name>` data line of their own. */
    method EmitVariablePrint(name: string) returns (fault: Option<Fault>)
      modifies this`text, this`data
      ensures Printed(PrintStmt(Variable(name), counter, consts, labels, div), old(State()), State(), fault)
    {
      assert PrintStmt(Variable(name), counter, consts, labels, div) == PrintVariable(name, consts);
      if name !in consts {
        return Some(UndefinedVariable(name));
      }
      match consts[name] {
        case Number(n) =>
          var digits := IntToString(n);
          data := data + [Define(VarSym(name), '"', digits, true)];
          text := text + ([Comment("Print numeric variable: " + name)] + WriteCall(VarSym(name), |digits| + 1));
        case Float(f) =>
          data := data + [Define(VarSym(name), '"', f.text, true)];
          text := text + ([Comment("Print float variable: " + name)] + WriteCall(VarSym(name), Utf8Length(f.text) + 1));
        case String(s) =>
          text := text + ([Comment("Print string variable: " + name)] + WriteCall(VarSym(name), Utf8Length(s) + 1));
        case Boolean(b) =>
          text := text + ([Comment("Print boolean variable: " + name)] + WriteCall(BoolSym(b), if b then 5 else 6));
        case Array(_) =>
          var sym := VarSym(name) + "_label";
          data := data + [Define(sym, '"', "[Array]", true)];
          text := text + ([Comment("Print array variable: " + name)] + WriteCall(sym, 8));
        case Null =>
          text := text + ([Comment("Print null variable: " + name)] + WriteCall("null_str", 5));
      }
      fault := None;
    }

    /** `print l op r`: a concatenation when `op` is `+` and an operand is string-like,
        otherwise the numeric value. */
    method EmitOperatorPrint(inner: Expr) returns (fault: Option<Fault>)
      requires inner.BinaryOp?
      modifies this`text
      ensures Printed(PrintStmt(inner, counter, consts, labels, div), old(State()), State(), fault)
    {
      var op, l, r := inner.op, inner.left, inner.right;
      if op == Add {
        var leftIsString := IsStringExpr(l, consts);
        var rightIsString := IsStringExpr(r, consts);
        if leftIsString || rightIsString {
          fault := EmitConcatPrint(l, r);
        } else {
          fault := EmitNumericPrint("Print numeric expression result", inner);
        }
      } else {
        fault := EmitNumericPrint("Print expression result", inner);
      }
    }

    /** Evaluates `e` into `rax` and prints it through `print_number`. */
    method EmitNumericPrint(note: string, e: Expr) returns (fault: Option<Fault>)
      modifies this`text
      ensures Appended(NumericPrintCode(note, e, consts, div), old(text), text, fault)
    {
      text := text + [Comment(note)];
      fault := GenerateExpressionCode(e);
      if fault.Some? {
        return;
      }
      text := text + (PrintNumberCall() + [Blank]);
    }

    /** The `Expr::Exit(code)` arm of the statement loop. */
    method EmitExit(code: Expr) returns (fault: Option<Fault>)
      modifies this`text
      ensures Appended(ExitStmt(code, consts, div), old(text), text, fault)
    {
      if code.Number? {
        text := text + [Comment("Exit program"), Mov("rax", 60), Mov("rdi", code.n), Syscall(), Blank];
        fault := None;
      } else if code.Variable? {
        var name := code.name;
        if name !in consts {
          return Some(UndefinedInExit(name));
        }
        var value := consts[name];
        if value.Number? {
          text := text + [Comment("Exit program with constant " + name), Mov("rax", 60), Mov("rdi", value.n),
                          Syscall(), Blank];
          fault := None;
        } else if value.Boolean? {
          text := text + [Comment("Exit program with boolean constant " + name), Mov("rax", 60),
                          Mov("rdi", if value.b then 1 else 0), Syscall(), Blank];
          fault := None;
        } else {
          fault := Some(NonNumericExit(name));
        }
      } else {
        text := text + [Comment("Exit program with expression result")];
        fault := GenerateExpressionCode(code);
        if fault.Some? {
          return;
        }
        text := text + ([MovReg("rdi", "rax")] + ExitCall());
      }
    }

    /** The `Expr::Const { name, value }` arm of the statement loop. */
    method EmitConst(name: string, value: Expr) returns (fault: Option<Fault>)
      modifies this`text, this`data, this`consts
      ensures Reached(ConstStmt(old(State()), name, value), State(), fault)
    {
      match value
      case Number(n) =>
        if name in consts {
          return Some(ConstRedeclared(name));
        }
        consts := consts[name := V.Number(n)];
        text := text + [Comment("Constant " + name + " = " + IntToString(n))];
        fault := None;
      case Float(f) =>
        if name in consts {
          return Some(ConstRedeclared(name));
        }
        consts := consts[name := V.Float(f)];
        text := text + [Comment("Constant " + name + " = " + f.text)];
        fault := None;
      case StringLiteral(s) =>
        if name in consts {
          return Some(ConstRedeclared(name));
        }
        data := data + [Define(VarSym(name), '"', s, true)];
        consts := consts[name := V.String(s)];
        text := text + [Comment("Constant " + name + " = " + ("\"" + s + "\""))];
        fault := None;
      case Boolean(b) =>
        if name in consts {
          return Some(ConstRedeclared(name));
        }
        consts := consts[name := V.Boolean(b)];
        text := text + [Comment("Constant " + name + " = " + V.BoolText(b))];
        fault := None;
      case Array(elements) =>
        if name in consts {
          return Some(ConstRedeclared(name));
        }
        var values := ArrayValues(elements);
        if values.Err? {
          return Some(values.error);
        }
        consts := consts[name := V.Array(values.value)];
        text := text + [Comment("Constant " + name + " = " + ("[array with " + NatToString(|elements|) + " elements]"))];
        fault := None;
      case Null =>
        if name in consts {
          return Some(ConstRedeclared(name));
        }
        consts := consts[name := V.Null];
        text := text + [Comment("Constant " + name + " = " + "null")];
        fault := None;
      case _ =>
        fault := Some(NonLiteralConst);
    }

    /** One iteration of the statement loop; other top-level forms are ignored. */
    method EmitStatement(stmt: Expr) returns (fault: Option<Fault>)
      modifies this`text, this`data, this`counter, this`consts
      ensures Reached(Step(old(State()), stmt, labels, div), State(), fault)
    {
      match stmt
      case Print(inner) =>
        fault := EmitPrint(inner);
        assert Step(old(State()), stmt, labels, div) == Step(old(State()), Print(inner), labels, div);
      case Exit(code) =>
        fault := EmitExit(code);
      case Const(name, value) =>
        fault := EmitConst(name, value);
      case _ =>
        fault := None;
    }

    /** `for expr in exprs { collect_string_literals(expr, ...) }`. */
    method CollectLiterals(stmts: seq<Expr>)
      modifies this`labels, this`counter, this`data
      ensures Collected() == CollectAll(stmts, old(Collected()))
    {
      ghost var start := Collected();
      for i := 0 to |stmts|
        invariant CollectAll(stmts[i..], Collected()) == CollectAll(stmts, start)
      {
        assert stmts[i..][1..] == stmts[i + 1..];
        CollectStringLiterals(stmts[i]);
      }
    }

    /** The statement loop of `generate_nasm`, stopping at the first panic. */
    method EmitStatements(stmts: seq<Expr>) returns (fault: Option<Fault>)
      modifies this`text, this`data, this`counter, this`consts
      ensures Reached(StatementLoop(stmts, old(State()), labels, div), State(), fault)
    {
      ghost var start := State();
      for i := 0 to |stmts|
        invariant StatementLoop(stmts[i..], State(), labels, div) == StatementLoop(stmts, start, labels, div)
      {
        assert stmts[i..][1..] == stmts[i + 1..];
        fault := EmitStatement(stmts[i]);
        if fault.Some? {
          return;
        }
      }
      fault := None;
    }
  }

  /** `exprs.iter().any(|e| matches!(e, Expr::Exit(_)))`. */
  method AnyExit(stmts: seq<Expr>) returns (r: bool)
    ensures r == HasExit(stmts)
  {
    for i := 0 to |stmts|
      invariant forall j :: 0 <= j < i ==> !stmts[j].Exit?
    {
      if stmts[i].Exit? {
        return true;
      }
    }
    return false;
  }

  /** `for elem in elements { values.push(...) }` of a `const` array: the values of
      the scalar literals, or the panic at the first other element. */
  method ArrayValues(elements: seq<Expr>) returns (r: Result<seq<V.ConstValue>, Fault>)
    ensures r == ElementValues(elements)
  {
    var values: seq<V.ConstValue> := [];
    assert elements[0..] == elements;
    for i := 0 to |elements|
      invariant ValuesSoFar(elements, i, values)
    {
      match elements[i]
      case Number(n) => ValuesStep(elements, i, values, V.Number(n)); values := values + [V.Number(n)];
      case Float(f) => ValuesStep(elements, i, values, V.Float(f)); values := values + [V.Float(f)];
      case StringLiteral(s) => ValuesStep(elements, i, values, V.String(s)); values := values + [V.String(s)];
      case Boolean(b) => ValuesStep(elements, i, values, V.Boolean(b)); values := values + [V.Boolean(b)];
      case Null => ValuesStep(elements, i, values, V.Null); values := values + [V.Null];
      case _ => ValuesStop(elements, i, values); return Err(NonLiteralArrayElement);
    }
    assert elements[|elements|..] == [] && values + [] == values;
    return Ok(values);
  }

  /** `values` holds the values of the first `i` elements: the whole result is an error
      exactly when the rest of the elements give one, and otherwise `values` followed by
      the values of the rest. */
  ghost predicate ValuesSoFar(elements: seq<Expr>, i: nat, values: seq<V.ConstValue>)
    requires i <= |elements|
  {
    var rest := ElementValues(elements[i..]);
    (rest.Err? ==> ElementValues(elements) == rest) &&
    (rest.Ok? ==> ElementValues(elements).Ok? && ElementValues(elements).value == values + rest.value)
  }

  lemma ValuesStep(elements: seq<Expr>, i: nat, values: seq<V.ConstValue>, x: V.ConstValue)
    requires i < |elements| && ValuesSoFar(elements, i, values) && ElementValue(elements[i]) == Ok(x)
    ensures ValuesSoFar(elements, i + 1, values + [x])
  {
    assert elements[i..][0] == elements[i] && elements[i..][1..] == elements[i + 1..];
    var rest := ElementValues(elements[i + 1..]);
    if rest.Ok? {
      assert values + ([x] + rest.value) == (values + [x]) + rest.value;
    }
  }

  lemma ValuesStop(elements: seq<Expr>, i: nat, values: seq<V.ConstValue>)
    requires i < |elements| && ValuesSoFar(elements, i, values) && ElementValue(elements[i]).Err?
    ensures ElementValues(elements) == Err(NonLiteralArrayElement)
  {
    assert elements[i..][0] == elements[i];
  }

  /** The document from its parts, in the order `generate_nasm` appends them. */
  method AssembleDocument(collected: seq<DataLine>, data: seq<DataLine>, text: seq<Line>) returns (asm: seq<string>)
    ensures asm == Assemble(collected, data, text)
  {
    asm := [];
    if collected != [] {
      asm := asm + DataBlock(collected);
    }
    asm := asm + TextHeader;
    assert asm == (if collected != [] then DataBlock(collected) else []) + TextHeader;
    if data != [] && !AnyLineContains(asm, "section .data") {
      asm := DataBlock(data) + asm;
    }
    asm := asm + RenderText(text) + PrintNumberRoutine + StringHelperRoutines;
  }

  /** `generate_nasm(exprs, output_path)` without the file write: the document it returns,
      or the panic that stops it. */
  method GenerateNasm(stmts: seq<Expr>) returns (r: Result<seq<string>, Fault>)
    ensures r == Generated(stmts)
  {
    var g := new Emitter(UnsignedDiv);
    g.CollectLiterals(stmts);
    var collected := g.data;
    ghost var c := CollectAll(stmts, Collection([], 0, InitialData));
    assert g.State() == Gen(c.data, [], c.counter, map[]) && g.labels == c.labels;
    var fault := g.EmitStatements(stmts);
    ghost var out := Compile(stmts, UnsignedDiv);
    if fault.Some? {
      assert out.Err? && out.error == fault.value;
      return Err(fault.value);
    }
    var hasExit := AnyExit(stmts);
    if !hasExit {
      g.text := g.text + DefaultExit();
    } else {
      assert g.text + [] == g.text;
    }
    assert out.Ok? && out.value.collected == collected && out.value.final == g.State();
    var asm := AssembleDocument(collected, g.data, g.text);
    r := Ok(asm);
  }
}
