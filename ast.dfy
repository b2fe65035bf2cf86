/** The expression tree. `ast.rs` declares only `Number` and `BinaryOp` over four
    operators; the code generator matches on more variants (statements, literals,
    names, comparison operators), so `Expr` is the union both need, and
    `IsParserExpr` picks out the part the parser builds. */
module Ast {

  const I32Min: int := -0x8000_0000
  const I32Max: int := 0x7fff_ffff

  /** Rust's `i32`. */
  type Int32 = x: int | I32Min <= x <= I32Max

  datatype BinOp = Add | Sub | Mul | Div | Equal | NotEqual | Lt | Gt | Lte | Gte

  /** An `f64`, identified by the text `f64::to_string` renders for it; floating-point
      arithmetic and formatting are not modelled. */
  datatype Float64 = Float64(text: string)

  /** Each node owns its children: an inductive datatype is finite and acyclic, so
      every structural recursion over it terminates. */
  datatype Expr =
    | Number(n: Int32)
    | Float(f: Float64)
    | StringLiteral(s: string)
    | Boolean(b: bool)
    | Null
    | Array(elements: seq<Expr>)
    | Variable(name: string)
    | BinaryOp(op: BinOp, left: Expr, right: Expr)
    | Print(inner: Expr)
    | Exit(code: Expr)
    | Const(name: string, value: Expr)

  /** The operators of `ast.rs`'s `BinOp`. */
  predicate IsArithOp(op: BinOp)
  {
    op == Add || op == Sub || op == Mul || op == Div
  }

  /** The trees `ast.rs` can express: `Number` leaves under arithmetic `BinaryOp` nodes. */
  predicate IsParserExpr(e: Expr)
  {
    match e
    case Number(_) => true
    case BinaryOp(op, l, r) => IsArithOp(op) && IsParserExpr(l) && IsParserExpr(r)
    case _ => false
  }
}
