/** What the scan of `lex` does with each kind of character, and what holds of every
    successful scan. */
module LexerFacts {
  import opened Wrappers
  import opened Text
  import Ast
  import opened Lexer

  /** A maximal run of digits becomes one `Number` holding its decimal value; a run
      whose value does not fit in `i32` aborts. */
  lemma LexDigitRun(digits: string, rest: string)
    requires |digits| >= 1 && AllDigits(digits)
    requires rest == [] || !IsDigit(rest[0])
    ensures DecimalValue(digits) <= Ast.I32Max ==>
      Lexed(digits + rest) == Prepend(Number(DecimalValue(digits)), Lexed(rest))
    ensures DecimalValue(digits) > Ast.I32Max ==> Lexed(digits + rest) == Err(NumberOverflow)
  {
    var s := digits + rest;
    SpanUnique(s, IsDigit, |digits|);
    assert s[..|digits|] == digits;
    assert s[|digits|..] == rest;
  }

  /** A decimal rendering of an `i32` value lexes back to that value. */
  lemma LexNatToString(n: nat)
    requires n <= Ast.I32Max
    ensures Lexed(NatToString(n)) == Ok([Number(n)])
  {
    LexDigitRun(NatToString(n), []);
    assert NatToString(n) + [] == NatToString(n);
    assert Lexed([]) == Ok([]);
    assert [Number(n)] + [] == [Number(n)];
  }

  /** Each of `+ - * / ( ) ; . =` is one token of one character. */
  lemma LexPunctuation(c: char, rest: string)
    requires IsPunctuation(c)
    ensures Lexed([c] + rest) == Prepend(PunctuationToken(c), Lexed(rest))
  {
    assert ([c] + rest)[1..] == rest;
  }

  /** `==` is two `Equals` tokens: there is no two-character operator. */
  lemma LexDoubleEquals()
    ensures Lexed("==") == Ok([Equals, Equals])
  {
    LexPunctuation('=', "=");
    LexPunctuation('=', "");
    assert Lexed("") == Ok([]);
    assert ['='] + "" == "=" && ['='] + "=" == "==";
    assert Lexed("=") == Ok([Equals]) by { assert [Equals] + [] == [Equals]; }
    assert [Equals] + [Equals] == [Equals, Equals];
  }

  /** `1.5` is `Number(1) Dot Number(5)`: there is no floating-point literal. */
  lemma LexDecimalPoint()
    ensures Lexed("1.5") == Ok([Number(1), Dot, Number(5)])
  {
    LexDigitRun("5", "");
    LexPunctuation('.', "5");
    LexDigitRun("1", ".5");
    assert Lexed("") == Ok([]);
    assert "5" + "" == "5" && ['.'] + "5" == ".5" && "1" + ".5" == "1.5";
    assert DecimalValue("5") == 5 && DecimalValue("1") == 1;
    assert Lexed("5") == Ok([Number(5)]) by { assert [Number(5)] + [] == [Number(5)]; }
    assert PunctuationToken('.') == Dot;
    assert [Dot] + [Number(5)] == [Dot, Number(5)];
    assert Lexed(".5") == Ok([Dot, Number(5)]);
    assert [Number(1)] + [Dot, Number(5)] == [Number(1), Dot, Number(5)];
  }

  /** A string literal is every character between the quotes, verbatim: there are
      no escapes. */
  lemma LexStringLiteral(body: string, rest: string)
    requires forall i :: 0 <= i < |body| ==> body[i] != '"'
    ensures Lexed(['"'] + body + ['"'] + rest) == Prepend(StringLiteral(body), Lexed(rest))
  {
    var s := ['"'] + body + ['"'] + rest;
    SpanUnique(s[1..], NotQuote, |body|);
    assert s[1..1 + |body|] == body;
    assert s[2 + |body|..] == rest;
  }

  /** A quote that is never closed aborts the scan. */
  lemma LexUnterminated(body: string)
    requires forall i :: 0 <= i < |body| ==> body[i] != '"'
    ensures Lexed(['"'] + body) == Err(UnterminatedString)
  {
    var s := ['"'] + body;
    SpanUnique(s[1..], NotQuote, |body|);
  }

  /** A word is a letter followed by letters and digits; exactly `println`, `print`
      and `const` are keywords. */
  lemma LexWord(word: string, rest: string)
    requires |word| >= 1 && IsAlphabetic(word[0])
    requires forall i :: 0 <= i < |word| ==> IsAlphanumeric(word[i])
    requires rest == [] || !IsAlphanumeric(rest[0])
    ensures Lexed(word + rest) == Prepend(WordToken(word), Lexed(rest))
  {
    var s := word + rest;
    SpanUnique(s, IsAlphanumeric, |word|);
    assert s[..|word|] == word;
    assert s[|word|..] == rest;
  }

  /** Whitespace yields no token. */
  lemma LexWhitespace(c: char, rest: string)
    requires IsWhitespace(c)
    ensures Lexed([c] + rest) == Lexed(rest)
  {
    assert ([c] + rest)[1..] == rest;
  }

  /** Any character outside those classes aborts the scan. */
  lemma LexUnrecognized(c: char, rest: string)
    requires !IsDigit(c) && !IsPunctuation(c) && c != '"' && !IsAlphabetic(c) && !IsWhitespace(c)
    ensures Lexed([c] + rest) == Err(UnrecognizedCharacter(c))
  {
  }

  /** For instance `_`, `{`, `<`, `,` and `'`, which other languages give meaning. */
  lemma LexRejectsSymbols(rest: string)
    ensures Lexed(['_'] + rest) == Err(UnrecognizedCharacter('_'))
    ensures Lexed(['{'] + rest) == Err(UnrecognizedCharacter('{'))
    ensures Lexed(['<'] + rest) == Err(UnrecognizedCharacter('<'))
    ensures Lexed([','] + rest) == Err(UnrecognizedCharacter(','))
    ensures Lexed(['\''] + rest) == Err(UnrecognizedCharacter('\''))
  {
    LexUnrecognized('_', rest);
    LexUnrecognized('{', rest);
    LexUnrecognized('<', rest);
    LexUnrecognized(',', rest);
    LexUnrecognized('\'', rest);
  }

  /** Every step consumes at least one character, so there are at most as many
      tokens as characters. */
  lemma {:induction false} LexedLength(s: string)
    requires Lexed(s).Ok?
    ensures |Lexed(s).value| <= |s|
    decreases |s|
  {
    if s != [] {
      match ScanOne(s)
      case Emit(t, n) => LexedLength(s[n..]);
      case Skip => LexedLength(s[1..]);
      case Fail(_) =>
    }
  }

  /** `-` is always a token of its own, so no `Number` token is negative. */
  lemma {:induction false} LexedNonNegative(s: string)
    requires Lexed(s).Ok?
    ensures forall i :: 0 <= i < |Lexed(s).value| && Lexed(s).value[i].Number? ==> Lexed(s).value[i].n >= 0
    decreases |s|
  {
    if s != [] {
      match ScanOne(s)
      case Emit(t, n) =>
        LexedNonNegative(s[n..]);
        assert Lexed(s).value == [t] + Lexed(s[n..]).value;
      case Skip => LexedNonNegative(s[1..]);
      case Fail(_) =>
    }
  }

  /** Scanning does not look past a whitespace character: when `a` scans and ends in
      whitespace, `a + b` yields the tokens of `a` and then those of `b`, in source order. */
  lemma {:induction false} LexedAppend(a: string, b: string)
    requires |a| >= 1 && IsWhitespace(a[|a| - 1])
    requires Lexed(a).Ok?
    ensures Lexed(a + b) == PrependAll(Lexed(a).value, Lexed(b))
    decreases |a|
  {
    var step := ScanOne(a);
    if step.Emit? {
      ScanPrefix(a, b);
      EmitTail(a, step.t, step.len);
      LexedAppend(a[step.len..], b);
      EmitCombine(a, b, step.t, step.len);
    } else if step.Skip? {
      SkipTail(a);
      if |a| > 1 {
        LexedAppend(a[1..], b);
      }
      SkipCombine(a, b);
    } else {
      LexedFail(a);
    }
  }

  /** After the head token of `a`, the rest still ends in whitespace and still scans. */
  lemma EmitTail(a: string, t: Token, n: nat)
    requires |a| >= 1 && IsWhitespace(a[|a| - 1]) && Lexed(a).Ok?
    requires ScanOne(a) == Emit(t, n) && n < |a|
    ensures |a[n..]| >= 1 && IsWhitespace(a[n..][|a[n..]| - 1])
    ensures Lexed(a[n..]).Ok? && Lexed(a).value == [t] + Lexed(a[n..]).value
  {
    LexedEmit(a, t, n);
    assert a[n..][|a| - n - 1] == a[|a| - 1];
  }

  lemma EmitCombine(a: string, b: string, t: Token, n: nat)
    requires n < |a| && ScanOne(a + b) == Emit(t, n)
    requires Lexed(a).Ok? && Lexed(a[n..]).Ok? && Lexed(a).value == [t] + Lexed(a[n..]).value
    requires Lexed(a[n..] + b) == PrependAll(Lexed(a[n..]).value, Lexed(b))
    ensures Lexed(a + b) == PrependAll(Lexed(a).value, Lexed(b))
  {
    LexedEmit(a + b, t, n);
    DropAppend(a, b, n);
    PrependAssoc(t, Lexed(a[n..]).value, Lexed(b));
  }

  /** After a skipped head character, the rest is empty or still ends in whitespace. */
  lemma SkipTail(a: string)
    requires |a| >= 1 && IsWhitespace(a[|a| - 1]) && Lexed(a).Ok? && ScanOne(a) == Skip
    ensures |a| > 1 ==> IsWhitespace(a[1..][|a| - 2])
    ensures Lexed(a[1..]).Ok? && Lexed(a).value == Lexed(a[1..]).value
  {
    LexedSkip(a);
  }

  lemma SkipCombine(a: string, b: string)
    requires |a| >= 1 && ScanOne(a) == Skip
    requires Lexed(a[1..]).Ok? && Lexed(a).value == Lexed(a[1..]).value
    requires |a| > 1 ==> Lexed(a[1..] + b) == PrependAll(Lexed(a[1..]).value, Lexed(b))
    ensures Lexed(a + b) == PrependAll(Lexed(a).value, Lexed(b))
  {
    var s := a + b;
    SkipHead(a, s);
    LexedSkip(s);
    DropAppend(a, b, 1);
    if |a| == 1 {
      assert a[1..] == [] && a[1..] + b == b;
      PrependNone(Lexed(b));
    }
  }

  /** A scan whose head fails fails as a whole. */
  lemma LexedFail(a: string)
    requires a != [] && ScanOne(a).Fail?
    ensures Lexed(a).Err?
  {
  }

  /** `Lexed` unfolded once at a token. */
  lemma LexedEmit(s: string, t: Token, n: nat)
    requires s != [] && ScanOne(s) == Emit(t, n)
    ensures Lexed(s) == Prepend(t, Lexed(s[n..]))
  {
  }

  /** `Lexed` unfolded once at a skipped character. */
  lemma LexedSkip(s: string)
    requires s != [] && ScanOne(s) == Skip
    ensures Lexed(s) == Lexed(s[1..])
  {
  }

  /** Whether the head is skipped depends on the head character alone. */
  lemma SkipHead(a: string, s: string)
    requires a != [] && s != [] && a[0] == s[0] && ScanOne(a) == Skip
    ensures ScanOne(s) == Skip
  {
  }

  lemma PrependAssoc(t: Token, us: seq<Token>, r: LexResult)
    ensures Prepend(t, PrependAll(us, r)) == PrependAll([t] + us, r)
  {
    if r.Ok? {
      assert [t] + (us + r.value) == ([t] + us) + r.value;
    }
  }

  lemma PrependNone(r: LexResult)
    ensures PrependAll([], r) == r
  {
    if r.Ok? {
      assert [] + r.value == r.value;
    }
  }

  /** A token that starts in `a` and ends before `a`'s final whitespace is scanned the
      same way when more text follows. */
  lemma ScanPrefix(a: string, b: string)
    requires |a| >= 1 && IsWhitespace(a[|a| - 1])
    requires ScanOne(a).Emit?
    ensures ScanOne(a + b) == ScanOne(a) && ScanOne(a).len < |a|
  {
    assert (a + b)[0] == a[0];
    if IsDigit(a[0]) {
      ScanPrefixDigits(a, b);
    } else if IsPunctuation(a[0]) {
    } else if a[0] == '"' {
      ScanPrefixString(a, b);
    } else if IsAlphabetic(a[0]) {
      ScanPrefixWord(a, b);
    }
  }

  lemma ScanPrefixDigits(a: string, b: string)
    requires |a| >= 1 && IsWhitespace(a[|a| - 1]) && IsDigit(a[0]) && (a + b)[0] == a[0]
    ensures ScanOne(a + b) == ScanOne(a) && Span(a, IsDigit) < |a|
  {
    var n := Span(a, IsDigit);
    assert n < |a|;
    SpanAppend(a, b, IsDigit);
    SliceAppend(a, b, 0, n);
  }

  lemma ScanPrefixString(a: string, b: string)
    requires |a| >= 1 && a[0] == '"' && (a + b)[0] == a[0] && ScanOne(a).Emit?
    ensures ScanOne(a + b) == ScanOne(a)
  {
    var k := Span(a[1..], NotQuote);
    DropAppend(a, b, 1);
    SpanAppend(a[1..], b, NotQuote);
    SliceAppend(a, b, 1, 1 + k);
  }

  lemma ScanPrefixWord(a: string, b: string)
    requires |a| >= 1 && IsWhitespace(a[|a| - 1]) && IsAlphabetic(a[0]) && (a + b)[0] == a[0]
    ensures ScanOne(a + b) == ScanOne(a) && Span(a, IsAlphanumeric) < |a|
  {
    var n := Span(a, IsAlphanumeric);
    assert n < |a|;
    SpanAppend(a, b, IsAlphanumeric);
    SliceAppend(a, b, 0, n);
  }

  /** A run that stops inside `a` stops at the same place when more text follows. */
  lemma SpanAppend(a: string, b: string, p: char -> bool)
    requires Span(a, p) < |a|
    ensures Span(a + b, p) == Span(a, p)
  {
    var n := Span(a, p);
    var s := a + b;
    assert forall i :: 0 <= i <= n ==> s[i] == a[i];
    SpanUnique(s, p, n);
  }
}
