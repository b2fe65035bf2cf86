/** The recursive-descent parser of `parser.rs`: a token vector and a position that
    every `eat` moves forward by one. The functions `PrimaryAt` ... `ExitAt` say what
    each parse method returns and where it leaves the position; the class `Parser`
    holds the mutable position and its methods are proved to follow them. */
module Parser {
  import opened Wrappers
  import opened Ast
  import L = Lexer

  /** What a parse method returns, and the position it leaves behind. */
  datatype Parsed = Parsed(expr: Option<Expr>, pos: nat)

  /** `tokens.get(p)`. */
  function TokenAt(toks: seq<L.Token>, p: nat): (t: Option<L.Token>)
    ensures t.Some? <==> p < |toks|
    ensures t.Some? ==> t.value == toks[p]
  {
    if p < |toks| then Some(toks[p]) else None
  }

  /** Tokens not yet eaten; the position may run one past the end. */
  function Remaining(toks: seq<L.Token>, p: nat): nat
  {
    if p <= |toks| then |toks| - p else 0
  }

  predicate IsAdditive(t: Option<L.Token>) { t == Some(L.Plus) || t == Some(L.Minus) }

  predicate IsMultiplicative(t: Option<L.Token>) { t == Some(L.Star) || t == Some(L.Slash) }

  function AdditiveOp(t: Option<L.Token>): BinOp
  {
    if t == Some(L.Plus) then Add else Sub
  }

  function MultiplicativeOp(t: Option<L.Token>): BinOp
  {
    if t == Some(L.Star) then Mul else Div
  }

  /** `parse_expr`: the additive level. */
  function ExprAt(toks: seq<L.Token>, p: nat): (r: Parsed)
    ensures r.pos > p
    ensures r.expr.Some? ==> IsParserExpr(r.expr.value)
    ensures r.expr.Some? ==> !IsAdditive(TokenAt(toks, r.pos)) && !IsMultiplicative(TokenAt(toks, r.pos))
    decreases Remaining(toks, p), 5
  {
    TermAt(toks, p)
  }

  /** `parse_term`: a factor, then `+`/`-` factors folded to the left. */
  function TermAt(toks: seq<L.Token>, p: nat): (r: Parsed)
    ensures r.pos > p
    ensures r.expr.Some? ==> IsParserExpr(r.expr.value)
    ensures r.expr.Some? ==> !IsAdditive(TokenAt(toks, r.pos)) && !IsMultiplicative(TokenAt(toks, r.pos))
    decreases Remaining(toks, p), 4
  {
    var first := FactorAt(toks, p);
    if first.expr.None? then first else TermLoop(toks, first.expr.value, first.pos)
  }

  /** The `while let` loop of `parse_term`, with `node` the tree built so far. */
  function TermLoop(toks: seq<L.Token>, node: Expr, p: nat): (r: Parsed)
    requires IsParserExpr(node) && !IsMultiplicative(TokenAt(toks, p))
    ensures r.pos >= p
    ensures r.expr.Some? ==> IsParserExpr(r.expr.value)
    ensures r.expr.Some? ==> !IsAdditive(TokenAt(toks, r.pos)) && !IsMultiplicative(TokenAt(toks, r.pos))
    decreases Remaining(toks, p), 3
  {
    if IsAdditive(TokenAt(toks, p)) then
      var right := FactorAt(toks, p + 1);
      if right.expr.None? then right
      else TermLoop(toks, BinaryOp(AdditiveOp(TokenAt(toks, p)), node, right.expr.value), right.pos)
    else Parsed(Some(node), p)
  }

  /** `parse_factor`: a primary, then `*`/`/` primaries folded to the left. */
  function FactorAt(toks: seq<L.Token>, p: nat): (r: Parsed)
    ensures r.pos > p
    ensures r.expr.Some? ==> IsParserExpr(r.expr.value) && !IsMultiplicative(TokenAt(toks, r.pos))
    decreases Remaining(toks, p), 2
  {
    var first := PrimaryAt(toks, p);
    if first.expr.None? then first else FactorLoop(toks, first.expr.value, first.pos)
  }

  /** The `while let` loop of `parse_factor`. */
  function FactorLoop(toks: seq<L.Token>, node: Expr, p: nat): (r: Parsed)
    requires IsParserExpr(node)
    ensures r.pos >= p
    ensures r.expr.Some? ==> IsParserExpr(r.expr.value) && !IsMultiplicative(TokenAt(toks, r.pos))
    decreases Remaining(toks, p), 1
  {
    if IsMultiplicative(TokenAt(toks, p)) then
      var right := PrimaryAt(toks, p + 1);
      if right.expr.None? then right
      else FactorLoop(toks, BinaryOp(MultiplicativeOp(TokenAt(toks, p)), node, right.expr.value), right.pos)
    else Parsed(Some(node), p)
  }

  /** `parse_primary`: a number, or a parenthesised expression. */
  function PrimaryAt(toks: seq<L.Token>, p: nat): (r: Parsed)
    ensures r.pos > p
    ensures r.expr.Some? ==> IsParserExpr(r.expr.value)
    decreases Remaining(toks, p), 0
  {
    var t := TokenAt(toks, p);
    if t.Some? && t.value.Number? then Parsed(Some(Number(t.value.n)), p + 1)
    else if t == Some(L.LParen) then
      var inner := ExprAt(toks, p + 1);
      if inner.expr.None? then inner
      else if TokenAt(toks, inner.pos) == Some(L.RParen) then Parsed(inner.expr, inner.pos + 1)
      else Parsed(None, inner.pos + 1)
    else Parsed(None, p + 1)
  }

  /** `parse_exit_expr`: `exit ( expr ) ;`, returning the inner expression. */
  function ExitAt(toks: seq<L.Token>, p: nat): (r: Parsed)
    ensures r.pos > p
    ensures r.expr.Some? ==> IsParserExpr(r.expr.value)
  {
    if TokenAt(toks, p) != Some(L.Ident("exit")) then Parsed(None, p + 1)
    else if TokenAt(toks, p + 1) != Some(L.LParen) then Parsed(None, p + 2)
    else
      var inner := ExprAt(toks, p + 2);
      if inner.expr.None? then inner
      else if TokenAt(toks, inner.pos) != Some(L.RParen) then Parsed(None, inner.pos + 1)
      else if TokenAt(toks, inner.pos + 1) != Some(L.Semicolon) then Parsed(None, inner.pos + 2)
      else Parsed(inner.expr, inner.pos + 2)
  }

  class Parser {
    var tokens: seq<L.Token>
    var pos: nat

    constructor (tokens: seq<L.Token>)
      ensures this.tokens == tokens && pos == 0
    {
      this.tokens := tokens;
      pos := 0;
    }

    /** The current token, without moving. */
    function Peek(): (t: Option<L.Token>)
      reads this
      ensures t.Some? <==> pos < |tokens|
      ensures t.Some? ==> t.value == tokens[pos]
    {
      if pos < |tokens| then Some(tokens[pos]) else None
    }

    /** The current token, and one step forward, even past the end. */
    method Eat() returns (t: Option<L.Token>)
      modifies this`pos
      ensures pos == old(pos) + 1
      ensures t == old(Peek())
    {
      t := Peek();
      pos := pos + 1;
    }

    method ParseExitExpr() returns (e: Option<Expr>)
      modifies this`pos
      ensures Parsed(e, pos) == ExitAt(tokens, old(pos))
    {
      var t := Eat();
      if t != Some(L.Ident("exit")) {
        return None;
      }
      t := Eat();
      if t != Some(L.LParen) {
        return None;
      }
      var inner := ParseExpr();
      if inner.None? {
        return None;
      }
      t := Eat();
      if t != Some(L.RParen) {
        return None;
      }
      t := Eat();
      if t != Some(L.Semicolon) {
        return None;
      }
      e := inner;
    }

    method ParseExpr() returns (e: Option<Expr>)
      modifies this`pos
      ensures Parsed(e, pos) == ExprAt(tokens, old(pos))
      decreases Remaining(tokens, pos), 5
    {
      e := ParseTerm();
    }

    method ParseTerm() returns (e: Option<Expr>)
      modifies this`pos
      ensures Parsed(e, pos) == TermAt(tokens, old(pos))
      decreases Remaining(tokens, pos), 4
    {
      var first := ParseFactor();
      if first.None? {
        return None;
      }
      var node := first.value;
      while IsAdditive(Peek())
        invariant pos > old(pos)
        invariant IsParserExpr(node) && !IsMultiplicative(TokenAt(tokens, pos))
        invariant TermAt(tokens, old(pos)) == TermLoop(tokens, node, pos)
        decreases Remaining(tokens, pos)
      {
        var t := Eat();
        var op := AdditiveOp(t);
        var right := ParseFactor();
        if right.None? {
          return None;
        }
        node := BinaryOp(op, node, right.value);
      }
      e := Some(node);
    }

    method ParseFactor() returns (e: Option<Expr>)
      modifies this`pos
      ensures Parsed(e, pos) == FactorAt(tokens, old(pos))
      decreases Remaining(tokens, pos), 2
    {
      var first := ParsePrimary();
      if first.None? {
        return None;
      }
      var node := first.value;
      while IsMultiplicative(Peek())
        invariant pos > old(pos)
        invariant IsParserExpr(node)
        invariant FactorAt(tokens, old(pos)) == FactorLoop(tokens, node, pos)
        decreases Remaining(tokens, pos)
      {
        var t := Eat();
        var op := MultiplicativeOp(t);
        var right := ParsePrimary();
        if right.None? {
          return None;
        }
        node := BinaryOp(op, node, right.value);
      }
      e := Some(node);
    }

    method ParsePrimary() returns (e: Option<Expr>)
      modifies this`pos
      ensures Parsed(e, pos) == PrimaryAt(tokens, old(pos))
      decreases Remaining(tokens, pos), 0
    {
      var t := Eat();
      if t.Some? && t.value.Number? {
        e := Some(Number(t.value.n));
      } else if t == Some(L.LParen) {
        var inner := ParseExpr();
        if inner.None? {
          return None;
        }
        var close := Eat();
        e := if close == Some(L.RParen) then inner else None;
      } else {
        e := None;
      }
    }
  }
}
