/** The values a `const` declaration binds, and how `Display` writes them. */
module Values {
  import opened Text
  import Ast

  datatype ConstValue =
    | Number(n: Ast.Int32)
    | Float(f: Ast.Float64)
    | String(s: string)
    | Boolean(b: bool)
    | Array(items: seq<ConstValue>)
    | Null

  function BoolText(b: bool): string
  {
    if b then "true" else "false"
  }

  /** `Display`: numbers in decimal, strings verbatim, arrays as `[a, b, c]`. */
  function Display(v: ConstValue): string
    decreases v, 1
  {
    match v
    case Number(n) => IntToString(n)
    case Float(f) => f.text
    case String(s) => s
    case Boolean(b) => BoolText(b)
    case Array(items) => "[" + Join(DisplayAll(items), ", ") + "]"
    case Null => "null"
  }

  function DisplayAll(items: seq<ConstValue>): (r: seq<string>)
    ensures |r| == |items|
    ensures forall i :: 0 <= i < |items| ==> r[i] == Display(items[i])
    decreases items, 0
  {
    if items == [] then [] else DisplayAll(items[..|items| - 1]) + [Display(items[|items| - 1])]
  }
}
