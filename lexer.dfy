/** The lexer of `lexer.rs`: one left-to-right scan over the characters producing
    tokens. `Lexed` is the specification, one token per recursive step;
    `Lex` is the loop of the source, proved to compute it. */
module Lexer {
  import opened Wrappers
  import opened Text
  import Ast

  datatype Token =
    | Number(n: Ast.Int32)
    | Plus
    | Minus
    | Star
    | Slash
    | LParen
    | RParen
    | Ident(text: string)
    | Semicolon
    | Println
    | Print
    | Dot
    | StringLiteral(s: string)
    | Const
    | Equals

  /** The lexer's `panic!`s. `NumberOverflow` is the debug-build arithmetic-overflow
      panic of the digit accumulation. */
  datatype LexError = UnterminatedString | UnrecognizedCharacter(c: char) | NumberOverflow

  type LexResult = Result<seq<Token>, LexError>

  /** ASCII letters stand for `char::is_alphabetic`. */
  predicate IsAlphabetic(c: char) { 'a' <= c <= 'z' || 'A' <= c <= 'Z' }

  /** ASCII letters and digits stand for `char::is_alphanumeric`. */
  predicate IsAlphanumeric(c: char) { IsAlphabetic(c) || IsDigit(c) }

  /** `char::is_whitespace`: the Unicode White_Space property. */
  predicate IsWhitespace(c: char)
  {
    ('\t' <= c <= '\r') || c == ' ' || c == '\U{0085}' || c == '\U{00A0}' || c == '\U{1680}'
    || ('\U{2000}' <= c <= '\U{200A}') || c == '\U{2028}' || c == '\U{2029}' || c == '\U{202F}'
    || c == '\U{205F}' || c == '\U{3000}'
  }

  /** The nine characters that are a token on their own. */
  predicate IsPunctuation(c: char)
  {
    c == '+' || c == '-' || c == '*' || c == '/' || c == '(' || c == ')' || c == ';' || c == '.' || c == '='
  }

  function PunctuationToken(c: char): (t: Token)
    requires IsPunctuation(c)
  {
    match c
    case '+' => Plus
    case '-' => Minus
    case '*' => Star
    case '/' => Slash
    case '(' => LParen
    case ')' => RParen
    case ';' => Semicolon
    case '.' => Dot
    case '=' => Equals
  }

  /** The three keywords; every other word is an identifier. */
  function WordToken(word: string): (t: Token)
    ensures t == Println <==> word == "println"
    ensures t == Print <==> word == "print"
    ensures t == Const <==> word == "const"
    ensures t.Ident? <==> word != "println" && word != "print" && word != "const"
    ensures t.Ident? ==> t.text == word
  {
    if word == "println" then Println
    else if word == "print" then Print
    else if word == "const" then Const
    else Ident(word)
  }

  /** Length of the longest prefix of `s` whose characters all satisfy `p`. */
  function Span(s: string, p: char -> bool): (n: nat)
    ensures n <= |s|
    ensures forall i :: 0 <= i < n ==> p(s[i])
    ensures n < |s| ==> !p(s[n])
  {
    if s == [] || !p(s[0]) then 0 else 1 + Span(s[1..], p)
  }

  /** Span is the only length with those three properties. */
  lemma {:induction false} SpanUnique(s: string, p: char -> bool, n: nat)
    requires n <= |s|
    requires forall i :: 0 <= i < n ==> p(s[i])
    requires n < |s| ==> !p(s[n])
    ensures Span(s, p) == n
  {
    if n > 0 {
      SpanUnique(s[1..], p, n - 1);
    }
  }

  predicate NotQuote(c: char) { c != '"' }

  /** Adds `t` in front of the tokens of a successful scan; a failure stays a failure. */
  function Prepend(t: Token, r: LexResult): LexResult
  {
    match r
    case Ok(ts) => Ok([t] + ts)
    case Err(e) => Err(e)
  }

  /** Adds the tokens `ts` in front of the tokens of a successful scan. */
  function PrependAll(ts: seq<Token>, r: LexResult): LexResult
  {
    match r
    case Ok(us) => Ok(ts + us)
    case Err(e) => Err(e)
  }

  /** What the character at the head of `s` does: start a token of `len` characters,
      be skipped, or abort the scan. */
  datatype Scan = Emit(t: Token, len: nat) | Skip | Fail(e: LexError)

  /** One iteration of the outer loop of `lex`, on the remaining input `s`. */
  function ScanOne(s: string): (r: Scan)
    requires s != []
    ensures r.Emit? ==> 1 <= r.len <= |s|
  {
    if IsDigit(s[0]) then
      var n := Span(s, IsDigit);
      var v := DecimalValue(s[..n]);
      if v > Ast.I32Max then Fail(NumberOverflow) else Emit(Number(v), n)
    else if IsPunctuation(s[0]) then Emit(PunctuationToken(s[0]), 1)
    else if s[0] == '"' then
      var k := Span(s[1..], NotQuote);
      if 1 + k == |s| then Fail(UnterminatedString) else Emit(StringLiteral(s[1..1 + k]), k + 2)
    else if IsAlphabetic(s[0]) then
      var n := Span(s, IsAlphanumeric);
      Emit(WordToken(s[..n]), n)
    else if IsWhitespace(s[0]) then Skip
    else Fail(UnrecognizedCharacter(s[0]))
  }

  /** The scan of `s`: the token its first character starts, then the scan of the rest. */
  function Lexed(s: string): (r: LexResult)
    decreases |s|
  {
    if s == [] then Ok([])
    else match ScanOne(s)
      case Emit(t, n) => Prepend(t, Lexed(s[n..]))
      case Skip => Lexed(s[1..])
      case Fail(e) => Err(e)
  }

  /** Moving one emitted token from the pending scan to the output. */
  lemma EmitStep(tokens: seq<Token>, s: string, t: Token, n: nat)
    requires s != [] && ScanOne(s) == Emit(t, n)
    ensures PrependAll(tokens, Lexed(s)) == PrependAll(tokens + [t], Lexed(s[n..]))
  {
    if Lexed(s[n..]).Ok? {
      assert tokens + ([t] + Lexed(s[n..]).value) == (tokens + [t]) + Lexed(s[n..]).value;
    }
  }

  /** EmitStep at position `i` of the whole input. */
  lemma EmitAt(tokens: seq<Token>, input: string, i: nat, t: Token, n: nat)
    requires i < |input| && ScanOne(input[i..]) == Emit(t, n)
    ensures i + n <= |input|
    ensures PrependAll(tokens, Lexed(input[i..])) == PrependAll(tokens + [t], Lexed(input[i + n..]))
  {
    EmitStep(tokens, input[i..], t, n);
    DropDrop(input, i, n);
  }

  /** A skipped character leaves the pending tokens as they are. */
  lemma SkipAt(tokens: seq<Token>, input: string, i: nat)
    requires i < |input| && ScanOne(input[i..]) == Skip
    ensures PrependAll(tokens, Lexed(input[i..])) == PrependAll(tokens, Lexed(input[i + 1..]))
  {
    DropDrop(input, i, 1);
  }

  /** `lex`: the `while let` loop over the peekable character stream. Each iteration
      looks at the next character and either pushes one token, skips it, or panics. */
  method Lex(input: string) returns (r: LexResult)
    ensures r == Lexed(input)
  {
    var tokens: seq<Token> := [];
    var i := 0;
    assert input[i..] == input;
    assert PrependAll(tokens, Lexed(input)) == Lexed(input) by {
      if Lexed(input).Ok? {
        assert tokens + Lexed(input).value == Lexed(input).value;
      }
    }
    while i < |input|
      invariant 0 <= i <= |input|
      invariant Lexed(input) == PrependAll(tokens, Lexed(input[i..]))
    {
      var step := ScanAt(input, i);
      match step
      case Emit(t, n) =>
        EmitAt(tokens, input, i, t, n);
        tokens := tokens + [t];
        i := i + n;
      case Skip =>
        SkipAt(tokens, input, i);
        i := i + 1;
      case Fail(e) =>
        return Err(e);
    }
    r := Ok(tokens);
    assert input[i..] == [] && tokens + [] == tokens;
  }

  /** The body of the outer loop at position `i`: the match on the peeked character. */
  method ScanAt(input: string, i: nat) returns (step: Scan)
    requires i < |input|
    ensures step == ScanOne(input[i..])
  {
    var c := input[i];
    if IsDigit(c) {
      step := ReadNumber(input, i);
    } else if IsPunctuation(c) {
      step := Emit(PunctuationToken(c), 1);
    } else if c == '"' {
      step := ReadString(input, i);
    } else if IsAlphabetic(c) {
      step := ReadWord(input, i);
    } else if IsWhitespace(c) {
      step := Skip;
    } else {
      step := Fail(UnrecognizedCharacter(c));
    }
  }

  /** The inner loop that accumulates `number * 10 + d` while the next character is a
      digit; an overflow of `i32` is the debug build's panic. */
  method ReadNumber(input: string, i: nat) returns (step: Scan)
    requires i < |input| && IsDigit(input[i])
    ensures step == ScanOne(input[i..])
  {
    ghost var rest := input[i..];
    var number := 0;
    var j := i;
    while j < |input| && IsDigit(input[j])
      invariant i <= j <= |input|
      invariant forall k :: 0 <= k < j - i ==> IsDigit(rest[k])
      invariant AllDigits(rest[..j - i]) && number == DecimalValue(rest[..j - i]) <= Ast.I32Max
    {
      assert rest[j - i] == input[j];
      DecimalValueSnoc(rest, j - i);
      number := number * 10 + DigitValue(input[j]);
      if number > Ast.I32Max {
        OverflowRun(rest, j + 1 - i);
        return Fail(NumberOverflow);
      }
      j := j + 1;
    }
    assert j < |input| ==> rest[j - i] == input[j];
    SpanUnique(rest, IsDigit, j - i);
    step := Emit(Number(number), j - i);
  }

  /** One more digit of a run: ten times the value so far, plus the digit. */
  lemma DecimalValueSnoc(s: string, n: nat)
    requires n < |s| && forall k :: 0 <= k <= n ==> IsDigit(s[k])
    ensures AllDigits(s[..n]) && AllDigits(s[..n + 1])
    ensures DecimalValue(s[..n + 1]) == 10 * DecimalValue(s[..n]) + DigitValue(s[n])
  {
    assert s[..n + 1][..n] == s[..n];
  }

  /** A digit prefix that is already above `i32::MAX` makes the whole run overflow. */
  lemma OverflowRun(s: string, n: nat)
    requires 1 <= n <= |s| && AllDigits(s[..n]) && DecimalValue(s[..n]) > Ast.I32Max
    ensures ScanOne(s) == Fail(NumberOverflow)
  {
    assert forall k :: 0 <= k < n ==> IsDigit(s[k]) by {
      forall k | 0 <= k < n
        ensures IsDigit(s[k])
      {
        assert s[..n][k] == s[k];
      }
    }
    var m := Span(s, IsDigit);
    assert n <= m;
    var run := s[..m];
    assert run[..n] == s[..n];
    DecimalValuePrefix(run, n);
  }

  /** Consumes the opening quote and pushes characters up to the next `"`, verbatim;
      a missing closing quote panics. */
  method ReadString(input: string, i: nat) returns (step: Scan)
    requires i < |input| && input[i] == '"'
    ensures step == ScanOne(input[i..])
  {
    ghost var rest := input[i..];
    var s := "";
    var j := i + 1;
    while j < |input| && input[j] != '"'
      invariant i + 1 <= j <= |input|
      invariant s == input[i + 1..j]
      invariant forall k :: i + 1 <= k < j ==> input[k] != '"'
    {
      s := s + [input[j]];
      j := j + 1;
    }
    SpanUnique(rest[1..], NotQuote, j - i - 1);
    if j == |input| {
      return Fail(UnterminatedString);
    }
    assert rest[1..1 + (j - i - 1)] == s;
    step := Emit(StringLiteral(s), j - i + 1);
  }

  /** Pushes alphanumeric characters onto the word, then maps it to a keyword or an
      identifier. */
  method ReadWord(input: string, i: nat) returns (step: Scan)
    requires i < |input| && IsAlphabetic(input[i])
    ensures step == ScanOne(input[i..])
  {
    ghost var rest := input[i..];
    var ident := "";
    var j := i;
    while j < |input| && IsAlphanumeric(input[j])
      invariant i <= j <= |input|
      invariant ident == rest[..j - i]
      invariant forall k :: 0 <= k < j - i ==> IsAlphanumeric(rest[k])
    {
      assert rest[j - i] == input[j];
      TakeSnoc(rest, j - i);
      ident := ident + [input[j]];
      j := j + 1;
    }
    assert j < |input| ==> rest[j - i] == input[j];
    SpanUnique(rest, IsAlphanumeric, j - i);
    step := Emit(WordToken(ident), j - i);
  }
}
