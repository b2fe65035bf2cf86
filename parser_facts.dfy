/** What the parser accepts and builds: fully parenthesised trees parse back to
    themselves, `*` and `/` bind tighter than `+` and `-`, chains fold to the left,
    and the lexer feeds the parser exactly the tokens a tree was printed from. */
module ParserFacts {
  import opened Wrappers
  import opened Text
  import opened Ast
  import L = Lexer
  import LF = LexerFacts
  import opened Parser

  /** The token of an arithmetic operator. */
  function OpToken(op: BinOp): (t: L.Token)
    requires IsArithOp(op)
    ensures IsAdditive(Some(t)) <==> op == Add || op == Sub
    ensures IsMultiplicative(Some(t)) <==> op == Mul || op == Div
    ensures IsAdditive(Some(t)) ==> AdditiveOp(Some(t)) == op
    ensures IsMultiplicative(Some(t)) ==> MultiplicativeOp(Some(t)) == op
  {
    if op == Add then L.Plus
    else if op == Sub then L.Minus
    else if op == Mul then L.Star
    else L.Slash
  }

  /** The tokens of a parser tree with every operator node in parentheses. */
  function Tokens(e: Expr): (ts: seq<L.Token>)
    requires IsParserExpr(e)
    ensures |ts| >= 1
  {
    if e.BinaryOp? then [L.LParen] + Tokens(e.left) + [OpToken(e.op)] + Tokens(e.right) + [L.RParen]
    else [L.Number(e.n)]
  }

  /** `toks` holds `ts` from position `p` on, token by token. */
  predicate HoldsAt(toks: seq<L.Token>, p: nat, ts: seq<L.Token>)
    decreases |ts|
  {
    p + |ts| <= |toks| && (ts == [] || (toks[p] == ts[0] && HoldsAt(toks, p + 1, ts[1..])))
  }

  lemma {:induction false} HoldsIndex(toks: seq<L.Token>, p: nat, ts: seq<L.Token>, k: nat)
    requires HoldsAt(toks, p, ts) && k < |ts|
    ensures toks[p + k] == ts[k]
    decreases k
  {
    if k > 0 {
      HoldsIndex(toks, p + 1, ts[1..], k - 1);
    }
  }

  /** Agreeing at every position is holding. */
  lemma {:induction false} HoldsByIndex(toks: seq<L.Token>, p: nat, ts: seq<L.Token>)
    requires p + |ts| <= |toks| && forall k :: 0 <= k < |ts| ==> toks[p + k] == ts[k]
    ensures HoldsAt(toks, p, ts)
    decreases |ts|
  {
    if ts != [] {
      assert toks[p + 0] == ts[0];
      forall k | 0 <= k < |ts| - 1 ensures toks[p + 1 + k] == ts[1..][k] {
        assert toks[p + (1 + k)] == ts[1 + k];
      }
      HoldsByIndex(toks, p + 1, ts[1..]);
    }
  }

  /** A part of what `toks` holds is held by `toks` a little further on. */
  lemma HoldsWithin(toks: seq<L.Token>, p: nat, ts: seq<L.Token>, i: nat, j: nat)
    requires HoldsAt(toks, p, ts) && i <= j <= |ts|
    ensures HoldsAt(toks, p + i, ts[i..j])
  {
    forall k | 0 <= k < j - i ensures toks[p + i + k] == ts[i..j][k] {
      HoldsIndex(toks, p, ts, i + k);
    }
    if j > i {
      HoldsIndex(toks, p, ts, j - 1);
    }
    HoldsByIndex(toks, p + i, ts[i..j]);
  }

  /** Inside parentheses, `l op r` followed by `)` parses as one operator node,
      whichever level the operator belongs to. */
  lemma OperatorInParens(toks: seq<L.Token>, p: nat, op: BinOp, l: Expr, r: Expr, q1: nat, q2: nat)
    requires IsArithOp(op) && IsParserExpr(l) && IsParserExpr(r)
    requires PrimaryAt(toks, p) == Parsed(Some(l), q1)
    requires TokenAt(toks, q1) == Some(OpToken(op))
    requires PrimaryAt(toks, q1 + 1) == Parsed(Some(r), q2)
    requires TokenAt(toks, q2) == Some(L.RParen)
    ensures ExprAt(toks, p) == Parsed(Some(BinaryOp(op, l, r)), q2)
  {
    var e := BinaryOp(op, l, r);
    assert FactorLoop(toks, r, q2) == Parsed(Some(r), q2);
    if op == Mul || op == Div {
      assert FactorLoop(toks, e, q2) == Parsed(Some(e), q2);
      assert FactorLoop(toks, l, q1) == FactorLoop(toks, e, q2);
      assert FactorAt(toks, p) == Parsed(Some(e), q2);
      assert TermLoop(toks, e, q2) == Parsed(Some(e), q2);
      assert TermAt(toks, p) == Parsed(Some(e), q2);
    } else {
      assert FactorLoop(toks, l, q1) == Parsed(Some(l), q1);
      assert FactorAt(toks, p) == Parsed(Some(l), q1);
      assert FactorAt(toks, q1 + 1) == Parsed(Some(r), q2);
      assert AdditiveOp(TokenAt(toks, q1)) == op;
      assert TermLoop(toks, e, q2) == Parsed(Some(e), q2);
      assert TermLoop(toks, l, q1) == TermLoop(toks, e, q2);
      assert TermAt(toks, p) == Parsed(Some(e), q2);
    }
  }

  lemma TokensBracketed(e: Expr)
    requires IsParserExpr(e) && e.BinaryOp?
    ensures Bracketed(Tokens(e), Tokens(e.left), OpToken(e.op), Tokens(e.right))
  {
    BracketedLayout(Tokens(e.left), OpToken(e.op), Tokens(e.right));
  }

  /** `ts` is `( tl o tr )`, position by position. */
  predicate Bracketed(ts: seq<L.Token>, tl: seq<L.Token>, o: L.Token, tr: seq<L.Token>)
  {
    |ts| == |tl| + |tr| + 3 && ts[0] == L.LParen && ts[1 + |tl|] == o &&
    ts[2 + |tl| + |tr|] == L.RParen &&
    ts[1..1 + |tl|] == tl && ts[2 + |tl|..2 + |tl| + |tr|] == tr
  }

  lemma BracketedLayout(tl: seq<L.Token>, o: L.Token, tr: seq<L.Token>)
    ensures Bracketed([L.LParen] + tl + [o] + tr + [L.RParen], tl, o, tr)
  {
    var ts := [L.LParen] + tl + [o] + tr + [L.RParen];
    assert ts[1..1 + |tl|] == tl;
    assert ts[2 + |tl|..2 + |tl| + |tr|] == tr;
  }

  lemma HoldsBracketed(toks: seq<L.Token>, p: nat, ts: seq<L.Token>, tl: seq<L.Token>, o: L.Token, tr: seq<L.Token>, q1: nat, q2: nat)
    requires Bracketed(ts, tl, o, tr) && HoldsAt(toks, p, ts)
    requires q1 == p + 1 + |tl| && q2 == q1 + 1 + |tr|
    ensures q2 < |toks| && q2 + 1 == p + |ts|
    ensures toks[p] == L.LParen && HoldsAt(toks, p + 1, tl) && toks[q1] == o
    ensures HoldsAt(toks, q1 + 1, tr) && toks[q2] == L.RParen
  {
    HoldsIndex(toks, p, ts, 0);
    HoldsIndex(toks, p, ts, 1 + |tl|);
    HoldsIndex(toks, p, ts, 2 + |tl| + |tr|);
    HoldsWithin(toks, p, ts, 1, 1 + |tl|);
    HoldsWithin(toks, p, ts, 2 + |tl|, 2 + |tl| + |tr|);
  }

  /** `( l op r )` is one primary holding one operator node. */
  lemma OperatorPrimary(toks: seq<L.Token>, p: nat, e: Expr, q1: nat, q2: nat)
    requires IsParserExpr(e) && e.BinaryOp?
    requires p < q2 < |toks| && toks[p] == L.LParen && toks[q2] == L.RParen
    requires PrimaryAt(toks, p + 1) == Parsed(Some(e.left), q1)
    requires TokenAt(toks, q1) == Some(OpToken(e.op))
    requires PrimaryAt(toks, q1 + 1) == Parsed(Some(e.right), q2)
    ensures PrimaryAt(toks, p) == Parsed(Some(e), q2 + 1)
  {
    OperatorInParens(toks, p + 1, e.op, e.left, e.right, q1, q2);
    PrimaryInParens(toks, p, e, q2);
  }

  /** Where the tokens of `( l op r )` stand, those of `l` and `r` stand inside them. */
  lemma OperandsHeld(e: Expr, toks: seq<L.Token>, p: nat, q1: nat, q2: nat)
    requires IsParserExpr(e) && e.BinaryOp? && HoldsAt(toks, p, Tokens(e))
    requires q1 == p + 1 + |Tokens(e.left)| && q2 == q1 + 1 + |Tokens(e.right)|
    ensures q2 < |toks| && q2 + 1 == p + |Tokens(e)|
    ensures toks[p] == L.LParen && HoldsAt(toks, p + 1, Tokens(e.left)) && toks[q1] == OpToken(e.op)
    ensures HoldsAt(toks, q1 + 1, Tokens(e.right)) && toks[q2] == L.RParen
  {
    TokensBracketed(e);
    HoldsBracketed(toks, p, Tokens(e), Tokens(e.left), OpToken(e.op), Tokens(e.right), q1, q2);
  }

  /** `( expr )` is a primary. */
  lemma PrimaryInParens(toks: seq<L.Token>, p: nat, e: Expr, q: nat)
    requires p < q < |toks| && toks[p] == L.LParen && toks[q] == L.RParen
    requires ExprAt(toks, p + 1) == Parsed(Some(e), q)
    ensures PrimaryAt(toks, p) == Parsed(Some(e), q + 1)
  {
  }

  /** A parenthesised tree (or a number) is one primary, whatever follows it. */
  lemma {:induction false} PrimaryParsesTokens(e: Expr, toks: seq<L.Token>, p: nat)
    requires IsParserExpr(e) && HoldsAt(toks, p, Tokens(e))
    ensures PrimaryAt(toks, p) == Parsed(Some(e), p + |Tokens(e)|)
    decreases e
  {
    if e.BinaryOp? {
      var q1 := p + 1 + |Tokens(e.left)|;
      var q2 := q1 + 1 + |Tokens(e.right)|;
      OperandsHeld(e, toks, p, q1, q2);
      PrimaryParsesTokens(e.left, toks, p + 1);
      PrimaryParsesTokens(e.right, toks, q1 + 1);
      OperatorPrimary(toks, p, e, q1, q2);
    } else {
      HoldsIndex(toks, p, Tokens(e), 0);
    }
  }

  /** A tree followed by anything but an operator parses back to itself. */
  lemma ExprParsesTokens(e: Expr, toks: seq<L.Token>, p: nat)
    requires IsParserExpr(e) && HoldsAt(toks, p, Tokens(e))
    requires var t := TokenAt(toks, p + |Tokens(e)|); !IsAdditive(t) && !IsMultiplicative(t)
    ensures ExprAt(toks, p) == Parsed(Some(e), p + |Tokens(e)|)
  {
    PrimaryParsesTokens(e, toks, p);
    PrimaryIsExpr(toks, p, e, p + |Tokens(e)|);
  }

  /** A primary followed by no operator is a whole expression. */
  lemma PrimaryIsExpr(toks: seq<L.Token>, p: nat, e: Expr, n: nat)
    requires IsParserExpr(e) && PrimaryAt(toks, p) == Parsed(Some(e), n)
    requires !IsAdditive(TokenAt(toks, n)) && !IsMultiplicative(TokenAt(toks, n))
    ensures ExprAt(toks, p) == Parsed(Some(e), n)
  {
    assert FactorLoop(toks, e, n) == Parsed(Some(e), n);
    assert FactorAt(toks, p) == Parsed(Some(e), n);
    assert TermLoop(toks, e, n) == Parsed(Some(e), n);
  }

  /** Parsing inverts printing: `parse_expr(tokens(e)) == e`, consuming every token. */
  lemma ParseRoundTrip(e: Expr)
    requires IsParserExpr(e)
    ensures ExprAt(Tokens(e), 0) == Parsed(Some(e), |Tokens(e)|)
  {
    HoldsPrefix(Tokens(e), []);
    assert Tokens(e) + [] == Tokens(e);
    ExprParsesTokens(e, Tokens(e), 0);
  }

  /** `exit ( e ) ;` yields `e` and stops right after the semicolon. */
  lemma ExitRoundTrip(e: Expr, rest: seq<L.Token>)
    requires IsParserExpr(e)
    ensures var toks := [L.Ident("exit"), L.LParen] + Tokens(e) + [L.RParen, L.Semicolon] + rest;
      ExitAt(toks, 0) == Parsed(Some(e), |Tokens(e)| + 4)
  {
    var ts := [L.Ident("exit"), L.LParen] + Tokens(e) + [L.RParen, L.Semicolon];
    HoldsPrefix(ts, rest);
    ExitParsesTokens(e, ts + rest, 0);
  }

  /** Wherever `exit ( e ) ;` stands, `parse_exit_expr` yields `e` and stops after the `;`. */
  lemma ExitParsesTokens(e: Expr, toks: seq<L.Token>, p: nat)
    requires IsParserExpr(e)
    requires HoldsAt(toks, p, [L.Ident("exit"), L.LParen] + Tokens(e) + [L.RParen, L.Semicolon])
    ensures ExitAt(toks, p) == Parsed(Some(e), p + |Tokens(e)| + 4)
  {
    var n := |Tokens(e)|;
    HoldsSplit(toks, p, [L.Ident("exit"), L.LParen], Tokens(e), [L.RParen, L.Semicolon], p + 2, p + 2 + n);
    ExitParsesParts(e, toks, p, p + 2 + n);
  }

  lemma ExitParsesParts(e: Expr, toks: seq<L.Token>, p: nat, q: nat)
    requires IsParserExpr(e) && q == p + 2 + |Tokens(e)|
    requires HoldsAt(toks, p, [L.Ident("exit"), L.LParen]) && HoldsAt(toks, p + 2, Tokens(e))
    requires HoldsAt(toks, q, [L.RParen, L.Semicolon])
    ensures ExitAt(toks, p) == Parsed(Some(e), q + 2)
  {
    HoldsPair(toks, p, L.Ident("exit"), L.LParen);
    HoldsPair(toks, q, L.RParen, L.Semicolon);
    ExprParsesTokens(e, toks, p + 2);
    ExitFromParts(toks, p, e, q);
  }

  lemma HoldsPrefix(a: seq<L.Token>, b: seq<L.Token>)
    ensures HoldsAt(a + b, 0, a)
  {
    forall k | 0 <= k < |a| ensures (a + b)[0 + k] == a[k] { }
    HoldsByIndex(a + b, 0, a);
  }

  lemma HoldsSuffix(a: seq<L.Token>, b: seq<L.Token>)
    ensures HoldsAt(a + b, |a|, b)
  {
    forall k | 0 <= k < |b| ensures (a + b)[|a| + k] == b[k] { }
    HoldsByIndex(a + b, |a|, b);
  }

  lemma HoldsSplit(toks: seq<L.Token>, p: nat, a: seq<L.Token>, b: seq<L.Token>, c: seq<L.Token>, pb: nat, pc: nat)
    requires HoldsAt(toks, p, a + b + c) && pb == p + |a| && pc == pb + |b|
    ensures HoldsAt(toks, p, a) && HoldsAt(toks, pb, b) && HoldsAt(toks, pc, c)
  {
    var t := a + b + c;
    forall k | 0 <= k < |a| ensures toks[p + k] == a[k] {
      HoldsIndex(toks, p, t, k);
    }
    forall k | 0 <= k < |b| ensures toks[pb + k] == b[k] {
      HoldsIndex(toks, p, t, |a| + k);
    }
    forall k | 0 <= k < |c| ensures toks[pc + k] == c[k] {
      HoldsIndex(toks, p, t, |a| + |b| + k);
    }
    HoldsByIndex(toks, p, a);
    HoldsByIndex(toks, pb, b);
    HoldsByIndex(toks, pc, c);
  }

  lemma HoldsPair(toks: seq<L.Token>, p: nat, x: L.Token, y: L.Token)
    requires HoldsAt(toks, p, [x, y])
    ensures TokenAt(toks, p) == Some(x) && TokenAt(toks, p + 1) == Some(y)
  {
    HoldsIndex(toks, p, [x, y], 0);
    HoldsIndex(toks, p, [x, y], 1);
  }

  lemma ExitFromParts(toks: seq<L.Token>, p: nat, e: Expr, q: nat)
    requires TokenAt(toks, p) == Some(L.Ident("exit")) && TokenAt(toks, p + 1) == Some(L.LParen)
    requires ExprAt(toks, p + 2) == Parsed(Some(e), q)
    requires TokenAt(toks, q) == Some(L.RParen) && TokenAt(toks, q + 1) == Some(L.Semicolon)
    ensures ExitAt(toks, p) == Parsed(Some(e), q + 2)
  {
  }

  /** `exit` parses only from `exit ( ... ) ;`: otherwise it fails, leaving the
      position after the first token that did not fit. */
  lemma ExitShape(toks: seq<L.Token>, p: nat)
    ensures ExitAt(toks, p).expr.Some? ==>
      var q := ExprAt(toks, p + 2).pos;
      TokenAt(toks, p) == Some(L.Ident("exit")) && TokenAt(toks, p + 1) == Some(L.LParen) &&
      ExprAt(toks, p + 2).expr == ExitAt(toks, p).expr &&
      TokenAt(toks, q) == Some(L.RParen) && TokenAt(toks, q + 1) == Some(L.Semicolon) &&
      ExitAt(toks, p).pos == q + 2
    ensures TokenAt(toks, p) != Some(L.Ident("exit")) ==> ExitAt(toks, p) == Parsed(None, p + 1)
    ensures TokenAt(toks, p) == Some(L.Ident("exit")) && TokenAt(toks, p + 1) != Some(L.LParen) ==>
      ExitAt(toks, p) == Parsed(None, p + 2)
  {
  }

  /** A failed parse does not give back the tokens it ate. */
  lemma ExitFailureKeepsPosition()
    ensures ExitAt([L.Ident("exit"), L.LParen, L.Number(1), L.Semicolon], 0) == Parsed(None, 4)
  {
    var toks := [L.Ident("exit"), L.LParen, L.Number(1), L.Semicolon];
    assert PrimaryAt(toks, 2) == Parsed(Some(Number(1)), 3);
    assert FactorLoop(toks, Number(1), 3) == Parsed(Some(Number(1)), 3);
    assert TermLoop(toks, Number(1), 3) == Parsed(Some(Number(1)), 3);
  }

  /** `*` binds tighter than `+`: `a + b * c` is `a + (b * c)`. */
  lemma MulBindsTighter(a: Int32, b: Int32, c: Int32)
    ensures ExprAt([L.Number(a), L.Plus, L.Number(b), L.Star, L.Number(c)], 0) ==
      Parsed(Some(BinaryOp(Add, Number(a), BinaryOp(Mul, Number(b), Number(c)))), 5)
  {
    var toks := [L.Number(a), L.Plus, L.Number(b), L.Star, L.Number(c)];
    var bc := BinaryOp(Mul, Number(b), Number(c));
    assert PrimaryAt(toks, 0) == Parsed(Some(Number(a)), 1);
    assert FactorLoop(toks, Number(a), 1) == Parsed(Some(Number(a)), 1);
    assert PrimaryAt(toks, 2) == Parsed(Some(Number(b)), 3);
    assert PrimaryAt(toks, 4) == Parsed(Some(Number(c)), 5);
    assert FactorLoop(toks, bc, 5) == Parsed(Some(bc), 5);
    assert FactorLoop(toks, Number(b), 3) == Parsed(Some(bc), 5);
    assert FactorAt(toks, 2) == Parsed(Some(bc), 5);
    assert TermLoop(toks, BinaryOp(Add, Number(a), bc), 5) == Parsed(Some(BinaryOp(Add, Number(a), bc)), 5);
    assert TermLoop(toks, Number(a), 1) == Parsed(Some(BinaryOp(Add, Number(a), bc)), 5);
    assert TermAt(toks, 0) == Parsed(Some(BinaryOp(Add, Number(a), bc)), 5);
  }

  /** `a * b + c` is `(a * b) + c`. */
  lemma MulBeforeAdd(a: Int32, b: Int32, c: Int32)
    ensures ExprAt([L.Number(a), L.Star, L.Number(b), L.Plus, L.Number(c)], 0) ==
      Parsed(Some(BinaryOp(Add, BinaryOp(Mul, Number(a), Number(b)), Number(c))), 5)
  {
    var toks := [L.Number(a), L.Star, L.Number(b), L.Plus, L.Number(c)];
    var ab := BinaryOp(Mul, Number(a), Number(b));
    assert PrimaryAt(toks, 0) == Parsed(Some(Number(a)), 1);
    assert PrimaryAt(toks, 2) == Parsed(Some(Number(b)), 3);
    assert FactorLoop(toks, ab, 3) == Parsed(Some(ab), 3);
    assert FactorLoop(toks, Number(a), 1) == Parsed(Some(ab), 3);
    assert FactorAt(toks, 0) == Parsed(Some(ab), 3);
    assert PrimaryAt(toks, 4) == Parsed(Some(Number(c)), 5);
    assert FactorLoop(toks, Number(c), 5) == Parsed(Some(Number(c)), 5);
    assert FactorAt(toks, 4) == Parsed(Some(Number(c)), 5);
    assert TermLoop(toks, BinaryOp(Add, ab, Number(c)), 5) == Parsed(Some(BinaryOp(Add, ab, Number(c))), 5);
    assert TermLoop(toks, ab, 3) == Parsed(Some(BinaryOp(Add, ab, Number(c))), 5);
    assert TermAt(toks, 0) == Parsed(Some(BinaryOp(Add, ab, Number(c))), 5);
  }

  /** A chain `op1 n1 op2 n2 ...` after `node`, folded from the left. */
  function FoldLeft(node: Expr, chain: seq<(BinOp, Int32)>): (e: Expr)
    requires forall i :: 0 <= i < |chain| ==> IsArithOp(chain[i].0)
    requires IsParserExpr(node)
    ensures IsParserExpr(e)
    ensures chain != [] ==> e.BinaryOp? && e.op == chain[|chain| - 1].0 && e.right == Number(chain[|chain| - 1].1)
    decreases |chain|
  {
    if chain == [] then node
    else FoldLeft(BinaryOp(chain[0].0, node, Number(chain[0].1)), chain[1..])
  }

  function ChainTokens(chain: seq<(BinOp, Int32)>): (ts: seq<L.Token>)
    requires forall i :: 0 <= i < |chain| ==> IsArithOp(chain[i].0)
    ensures |ts| == 2 * |chain|
  {
    if chain == [] then []
    else [OpToken(chain[0].0), L.Number(chain[0].1)] + ChainTokens(chain[1..])
  }

  /** `-` and `+` associate to the left: `parse_term`'s loop folds the chain from the
      left, up to the first token that is no operator. */
  lemma {:induction false} TermChainFoldsLeft(toks: seq<L.Token>, node: Expr, chain: seq<(BinOp, Int32)>, p: nat)
    requires forall i :: 0 <= i < |chain| ==> chain[i].0 == Add || chain[i].0 == Sub
    requires IsParserExpr(node) && HoldsAt(toks, p, ChainTokens(chain))
    requires !IsMultiplicative(TokenAt(toks, p))
    requires var t := TokenAt(toks, p + 2 * |chain|); !IsAdditive(t) && !IsMultiplicative(t)
    ensures TermLoop(toks, node, p) == Parsed(Some(FoldLeft(node, chain)), p + 2 * |chain|)
    decreases |chain|
  {
    if chain != [] {
      var (op, n) := chain[0];
      ChainHead(toks, chain, p);
      var next := BinaryOp(op, node, Number(n));
      assert !IsMultiplicative(TokenAt(toks, p + 2)) by {
        if chain[1..] != [] { ChainHead(toks, chain[1..], p + 2); }
      }
      FactorAfterNumber(toks, n, p + 1);
      TermChainFoldsLeft(toks, next, chain[1..], p + 2);
    }
  }

  /** `*` and `/` associate to the left in `parse_factor`'s loop. */
  lemma {:induction false} FactorChainFoldsLeft(toks: seq<L.Token>, node: Expr, chain: seq<(BinOp, Int32)>, p: nat)
    requires forall i :: 0 <= i < |chain| ==> chain[i].0 == Mul || chain[i].0 == Div
    requires IsParserExpr(node) && HoldsAt(toks, p, ChainTokens(chain))
    requires !IsMultiplicative(TokenAt(toks, p + 2 * |chain|))
    ensures FactorLoop(toks, node, p) == Parsed(Some(FoldLeft(node, chain)), p + 2 * |chain|)
    decreases |chain|
  {
    if chain != [] {
      var (op, n) := chain[0];
      ChainHead(toks, chain, p);
      assert PrimaryAt(toks, p + 1) == Parsed(Some(Number(n)), p + 2);
      FactorChainFoldsLeft(toks, BinaryOp(op, node, Number(n)), chain[1..], p + 2);
    }
  }

  /** The first link of a chain: its operator token, its number, and the rest after them. */
  lemma {:induction false} ChainHead(toks: seq<L.Token>, chain: seq<(BinOp, Int32)>, p: nat)
    requires forall i :: 0 <= i < |chain| ==> IsArithOp(chain[i].0)
    requires chain != [] && HoldsAt(toks, p, ChainTokens(chain))
    ensures toks[p] == OpToken(chain[0].0) && toks[p + 1] == L.Number(chain[0].1)
    ensures HoldsAt(toks, p + 2, ChainTokens(chain[1..]))
  {
    var ts := ChainTokens(chain);
    HoldsIndex(toks, p, ts, 0);
    HoldsIndex(toks, p, ts, 1);
    HoldsWithin(toks, p, ts, 2, |ts|);
    assert ts[2..|ts|] == ChainTokens(chain[1..]);
  }

  /** A number followed by no `*` or `/` is a whole factor. */
  lemma FactorAfterNumber(toks: seq<L.Token>, n: Int32, p: nat)
    requires p < |toks| && toks[p] == L.Number(n) && !IsMultiplicative(TokenAt(toks, p + 1))
    ensures FactorAt(toks, p) == Parsed(Some(Number(n)), p + 1)
  {
    assert PrimaryAt(toks, p) == Parsed(Some(Number(n)), p + 1);
    assert FactorLoop(toks, Number(n), p + 1) == Parsed(Some(Number(n)), p + 1);
  }

  /** `1 - 2 - 3` is `(1 - 2) - 3`. */
  lemma SubtractionFoldsLeft()
    ensures ExprAt([L.Number(1), L.Minus, L.Number(2), L.Minus, L.Number(3)], 0) ==
      Parsed(Some(BinaryOp(Sub, BinaryOp(Sub, Number(1), Number(2)), Number(3))), 5)
  {
    var toks := [L.Number(1), L.Minus, L.Number(2), L.Minus, L.Number(3)];
    var chain := [(Sub, 2 as Int32), (Sub, 3 as Int32)];
    assert ChainTokens(chain) == toks[1..];
    HoldsSuffix(toks[..1], toks[1..]);
    assert toks[..1] + toks[1..] == toks;
    assert FactorAt(toks, 0) == Parsed(Some(Number(1)), 1);
    TermChainFoldsLeft(toks, Number(1), chain, 1);
  }

  /** `8 / 4 / 2` is `(8 / 4) / 2`. */
  lemma DivisionFoldsLeft()
    ensures ExprAt([L.Number(8), L.Slash, L.Number(4), L.Slash, L.Number(2)], 0) ==
      Parsed(Some(BinaryOp(Div, BinaryOp(Div, Number(8), Number(4)), Number(2))), 5)
  {
    var toks := [L.Number(8), L.Slash, L.Number(4), L.Slash, L.Number(2)];
    var chain := [(Div, 4 as Int32), (Div, 2 as Int32)];
    var e := BinaryOp(Div, BinaryOp(Div, Number(8), Number(4)), Number(2));
    assert ChainTokens(chain) == toks[1..];
    HoldsSuffix(toks[..1], toks[1..]);
    assert toks[..1] + toks[1..] == toks;
    assert PrimaryAt(toks, 0) == Parsed(Some(Number(8)), 1);
    FactorChainFoldsLeft(toks, Number(8), chain, 1);
    assert FactorAt(toks, 0) == Parsed(Some(e), 5);
    assert TermLoop(toks, e, 5) == Parsed(Some(e), 5);
  }

  /** Tokens after a complete expression are left for the caller: `1 2` parses `1`. */
  lemma TrailingTokensLeft()
    ensures ExprAt([L.Number(1), L.Number(2)], 0) == Parsed(Some(Number(1)), 1)
  {
    var toks := [L.Number(1), L.Number(2)];
    assert FactorAt(toks, 0) == Parsed(Some(Number(1)), 1);
  }

  /** Leaves the lexer can produce: it has no minus sign on literals. */
  predicate NonNegativeLeaves(e: Expr)
  {
    match e
    case Number(n) => n >= 0
    case BinaryOp(_, l, r) => NonNegativeLeaves(l) && NonNegativeLeaves(r)
    case _ => false
  }

  function OpChar(op: BinOp): char
  {
    if op == Add then '+' else if op == Sub then '-' else if op == Mul then '*' else '/'
  }

  /** Source text for a tree: decimal numbers, operator characters and parentheses,
      each followed by a space. */
  function Show(e: Expr): (s: string)
    requires IsParserExpr(e) && NonNegativeLeaves(e)
    ensures |s| >= 2 && s[|s| - 1] == ' '
  {
    if e.BinaryOp? then "( " + Show(e.left) + [OpChar(e.op), ' '] + Show(e.right) + ") "
    else NatToString(e.n) + " "
  }

  lemma PrependAllCompose(a: seq<L.Token>, b: seq<L.Token>, r: L.LexResult)
    ensures L.PrependAll(a, L.PrependAll(b, r)) == L.PrependAll(a + b, r)
  {
    if r.Ok? {
      assert a + (b + r.value) == (a + b) + r.value;
    }
  }

  /** One punctuation character and a space, then `rest`. */
  lemma LexPunctSpace(c: char, rest: string)
    requires L.IsPunctuation(c)
    ensures L.Lexed([c, ' '] + rest) == L.PrependAll([L.PunctuationToken(c)], L.Lexed(rest))
  {
    assert [c, ' '] + rest == [c] + ([' '] + rest);
    LF.LexPunctuation(c, [' '] + rest);
    LF.LexWhitespace(' ', rest);
  }

  /** The text of an operator node, cut where the lexer lemmas apply. */
  lemma ShowOperatorParts(e: Expr, rest: string)
    requires IsParserExpr(e) && NonNegativeLeaves(e) && e.BinaryOp?
    ensures Show(e) + rest ==
      ['(', ' '] + (Show(e.left) + ([OpChar(e.op), ' '] + (Show(e.right) + ([')', ' '] + rest))))
  {
    var l, r := Show(e.left), Show(e.right);
    assert Show(e) == ['(', ' '] + l + [OpChar(e.op), ' '] + r + [')', ' '];
    Regroup5(['(', ' '], l, [OpChar(e.op), ' '], r, [')', ' '], rest);
  }

  /** The tokens of an operator node, grouped the same way. */
  lemma TokensOperatorParts(e: Expr, r: L.LexResult)
    requires IsParserExpr(e) && e.BinaryOp?
    ensures L.PrependAll([L.LParen], L.PrependAll(Tokens(e.left), L.PrependAll([OpToken(e.op)],
      L.PrependAll(Tokens(e.right), L.PrependAll([L.RParen], r))))) == L.PrependAll(Tokens(e), r)
  {
    if r.Ok? {
      var a, b := Tokens(e.left), Tokens(e.right);
      assert Tokens(e) == [L.LParen] + a + [OpToken(e.op)] + b + [L.RParen];
      Regroup5([L.LParen], a, [OpToken(e.op)], b, [L.RParen], r.value);
    }
  }

  /** The lexer turns the text of a tree into the tokens of that tree. */
  lemma {:induction false} LexShow(e: Expr, rest: string)
    requires IsParserExpr(e) && NonNegativeLeaves(e)
    ensures L.Lexed(Show(e) + rest) == L.PrependAll(Tokens(e), L.Lexed(rest))
    decreases e
  {
    if e.BinaryOp? {
      var op, l, r := e.op, e.left, e.right;
      var afterOp := Show(r) + ([')', ' '] + rest);
      var afterLeft := [OpChar(op), ' '] + afterOp;
      ShowOperatorParts(e, rest);
      LexPunctSpace('(', Show(l) + afterLeft);
      LexShow(l, afterLeft);
      LexPunctSpace(OpChar(op), afterOp);
      assert L.PunctuationToken(OpChar(op)) == OpToken(op);
      LexShow(r, [')', ' '] + rest);
      LexPunctSpace(')', rest);
      TokensOperatorParts(e, L.Lexed(rest));
    } else {
      var n: nat := e.n;
      assert NatToString(n) + " " + rest == NatToString(n) + ([' '] + rest);
      LF.LexDigitRun(NatToString(n), [' '] + rest);
      LF.LexWhitespace(' ', rest);
      if L.Lexed(rest).Ok? {
        assert [L.Number(n)] + L.Lexed(rest).value == Tokens(e) + L.Lexed(rest).value;
      }
    }
  }

  /** Lexing then parsing the text of a tree gives back the tree. */
  lemma LexThenParse(e: Expr)
    requires IsParserExpr(e) && NonNegativeLeaves(e)
    ensures L.Lexed(Show(e)) == Ok(Tokens(e))
    ensures ExprAt(Tokens(e), 0) == Parsed(Some(e), |Tokens(e)|)
  {
    LexShow(e, []);
    assert Show(e) + [] == Show(e);
    assert Tokens(e) + [] == Tokens(e);
    ParseRoundTrip(e);
  }
}
