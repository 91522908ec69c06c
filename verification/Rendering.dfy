/** A printed token is read back as itself, as long as what follows it does not continue it. */
module Rendering {
  import opened Chars
  import opened Layout
  import opened Lexing
  import opened Locality
  import opened Tokens
  import opened Wrappers

  predicate IsWord(s: string) { s != "" && IsWordStart(s[0]) && forall i | 0 <= i < |s| :: IsWordChar(s[i]) }

  /** Digits, a point and digits. */
  predicate IsFloat(s: string) {
    && s != "" && IsDigit(s[0]) && HasFraction(s, DigitsLen(s))
    && DigitsLen(s[DigitsLen(s) + 1..]) == |s| - DigitsLen(s) - 1
  }

  predicate IsHtml(s: string, parts: seq<HtmlPart>) {
    |s| > 5 && s[..5] == "html`" && HtmlBody(s[5..], "") == Some((parts, |s| - 5))
  }

  /** A token and the text it was read from. */
  predicate Shape(k: TokenKind, text: string) {
    match k
    case Int(_) => true
    case Float(s) => s == text && IsFloat(s)
    case Str(_) => true
    case Ident(s) => IsWord(s) && KeywordFromStr(s).None?
    case HtmlLit(parts) => IsHtml(text, parts)
    case Word(_) => true
    case Sym(_) => true
    case Eof => false
  }

  /** An integer literal is read only if it fits into 64 bits. */
  predicate Fits(k: TokenKind) { k.Int? ==> k.n <= MAX_INT64 }

  predicate Continues(s: Symbol, c: char) {
    match s
    case Question => c == '?'
    case Dot => c == '.'
    case Lt | Gt | Bang => c == '='
    case Equals => c == '=' || c == '>'
    case Minus => c == '>'
    case Pipe => c == '|'
    case Slash => c == '/' || c == '*'
    case _ => false
  }

  /** The token ends where `rest` begins. */
  predicate Stops(k: TokenKind, rest: string) {
    match k
    case Int(_) => rest == "" || (!IsDigit(rest[0]) && !HasFraction(rest, 0))
    case Float(_) => rest == "" || !IsDigit(rest[0])
    case Ident(s) => rest == "" || (!IsWordChar(rest[0]) && (s == "html" ==> rest[0] != '`'))
    case Word(_) => rest == "" || !IsWordChar(rest[0])
    case Sym(s) => rest == "" || !Continues(s, rest[0])
    case _ => true
  }

  // ----- what the lexer reads has a shape -----

  lemma TokenShape(t: string)
    requires t != "" && LexToken(t).Some?
    ensures Shape(LexToken(t).value.0, t[..LexToken(t).value.1]) && Fits(LexToken(t).value.0)
  {
    hide LexNumber, StringBody, HtmlBody, KeywordFromStr, LexSymbol, IsFloat, IsHtml;
    var (k, n) := LexToken(t).value;
    if IsDigit(t[0]) {
      NumberShape(t);
    } else if IsWordStart(t[0]) {
      if k.HtmlLit? {
        HtmlShape(t);
      } else {
        assert t[..n][0] == t[0];
      }
    }
  }

  lemma NumberShape(t: string)
    requires t != "" && IsDigit(t[0]) && LexNumber(t).Some?
    ensures Shape(LexNumber(t).value.0, t[..LexNumber(t).value.1]) && Fits(LexNumber(t).value.0)
  {
    var n := DigitsLen(t);
    if HasFraction(t, n) {
      var m := n + 1 + DigitsLen(t[n + 1..]);
      assert t[..m][..n] == t[..n] && t[..m][n + 1..] == t[n + 1..][..m - n - 1];
      assert n > 0;
      FloatEnds(t[..m], n);
    }
  }

  lemma FloatEnds(s: string, n: nat)
    requires n + 1 < |s| && 0 < n && AllDigits(s[..n]) && s[n] == '.' && AllDigits(s[n + 1..])
    ensures IsFloat(s)
  {
    assert s[..n][0] == s[0];
    DigitsEnd(s, n);
    assert s[n + 1..][0] == s[n + 1];
    var fraction := s[n + 1..];
    assert fraction[..|fraction|] == fraction;
    DigitsEnd(fraction, |fraction|);
    assert s[..|s|] == s;
  }

  lemma HtmlShape(t: string)
    requires t != "" && !IsDigit(t[0]) && LexToken(t).Some? && LexToken(t).value.0.HtmlLit?
    ensures IsHtml(t[..LexToken(t).value.1], LexToken(t).value.0.parts)
  {
    hide StringBody, HtmlBody, KeywordFromStr, LexSymbol;
    var (k, n) := LexToken(t).value;
    assert t[..5] == t[..4] + [t[4]];
    var s := t[..n];
    assert s[..5] == t[..5] && s[5..] == t[5..][..n - 5];
    BodyIsLocal(t[5..], s[5..], n - 5, "");
  }

  // ----- and is read back when printed -----

  lemma IntIsRead(n: nat, rest: string)
    requires Stops(Int(n), rest)
    ensures LexToken(Decimal(n) + rest) == if Fits(Int(n)) then Some((Int(n), |Decimal(n)|)) else None
  {
    var s := Decimal(n);
    var t := s + rest;
    assert IsDigit(s[0]) && t[0] == s[0];
    assert t[..|s|] == s;
    DigitsEnd(t, |s|);
    ValueOfDecimal(n);
    assert HasFraction(t, |s|) == HasFraction(rest, 0);
  }

  lemma DigitsGoOn(s: string, rest: string)
    requires DigitsLen(s) < |s| || rest == "" || !IsDigit(rest[0])
    ensures DigitsLen(s + rest) == DigitsLen(s)
  {
    var n := DigitsLen(s);
    forall i | 0 <= i < n ensures IsDigit((s + rest)[..n][i]) {
      assert (s + rest)[..n][i] == s[..n][i];
    }
    DigitsEnd(s + rest, n);
  }

  lemma DropFromSum(s: string, rest: string, k: nat)
    requires k <= |s|
    ensures (s + rest)[k..] == s[k..] + rest && (s + rest)[..k] == s[..k] && s[..|s|] == s
  {}

  lemma FloatIsRead(s: string, rest: string)
    requires IsFloat(s) && Stops(Float(s), rest)
    ensures LexToken(s + rest) == Some((Float(s), |s|))
  {
    hide AllDigits, ParseInt, StringBody, HtmlBody, WordKind, WordLen, LexSymbol, LexNumber;
    var t := s + rest;
    var n := DigitsLen(s);
    DigitsGoOn(s, rest);
    DigitsGoOn(s[n + 1..], rest);
    DropFromSum(s, rest, n + 1);
    DropFromSum(s, rest, |s|);
    assert HasFraction(t, n);
    hide DigitsLen;
    FractionIsRead(t, |s|);
  }

  lemma FractionIsRead(t: string, m: nat)
    requires t != "" && IsDigit(t[0]) && HasFraction(t, DigitsLen(t)) && m == DigitsLen(t) + 1 + DigitsLen(t[DigitsLen(t) + 1..])
    ensures LexNumber(t) == Some((Float(t[..m]), m))
  {
    hide DigitsLen, ParseInt, AllDigits;
  }

  lemma WordIsRead(s: string, rest: string)
    requires IsWord(s) && (rest == "" || (!IsWordChar(rest[0]) && (s == "html" ==> rest[0] != '`')))
    ensures LexToken(s + rest) == Some((WordKind(s), |s|))
  {
    hide WordKind, HtmlBody;
    var t := s + rest;
    WordEnds(t, |s|);
    assert t[..|s|] == s;
  }

  lemma HtmlIsRead(s: string, parts: seq<HtmlPart>, rest: string)
    requires IsHtml(s, parts)
    ensures LexToken(s + rest) == Some((HtmlLit(parts), |s|))
  {
    hide HtmlBody;
    var t := s + rest;
    assert t[..5] == s[..5] == "html`";
    forall i | 0 <= i < 5 ensures t[i] == "html`"[i] {
      assert t[..5][i] == t[i];
    }
    WordEnds(t, 4);
    assert t[..4] == t[..5][..4];
    assert t[5..] == s[5..] + rest;
    assert t[5..][..|s| - 5] == s[5..][..|s| - 5];
    BodyIsLocal(s[5..], t[5..], |s| - 5, "");
  }

  lemma SymbolHead(s: Symbol)
    ensures SymbolText(s) != ""
    ensures var c := SymbolText(s)[0];
      !IsDigit(c) && !IsWordStart(c) && c != '"' && c != '`' && !IsWhitespace(c) && (c == '/' ==> s == Slash)
  {}

  /** A symbol that no other one begins with or ends. */
  predicate IsSingle(s: Symbol) { SingleSymbol(SymbolText(s)[0]).Some? }

  lemma SingleIsRead(s: Symbol)
    requires IsSingle(s)
    ensures SingleSymbol(SymbolText(s)[0]) == Some(s) && |SymbolText(s)| == 1
  {}

  lemma OperatorIsRead(s: Symbol, rest: string)
    requires !IsSingle(s) && Stops(Sym(s), rest)
    ensures Operator(SymbolText(s) + rest) == Some(s)
  {
    hide LexToken;
    var t := SymbolText(s) + rest;
    assert t[0] == SymbolText(s)[0];
    if SymbolWidth(s) == 2 {
      assert t[1] == SymbolText(s)[1];
    } else {
      assert |SymbolText(s)| == 1;
      assert rest != "" ==> t[1] == rest[0];
    }
  }

  lemma SymbolIsRead(s: Symbol, rest: string)
    requires Stops(Sym(s), rest)
    ensures LexToken(SymbolText(s) + rest) == Some((Sym(s), |SymbolText(s)|)) && NoTrivia(SymbolText(s) + rest)
  {
    hide LexNumber, StringBody, HtmlBody, WordKind, BlockEnd, LineLen, Operator, SingleSymbol, SymbolText, IsWhitespace;
    var t := SymbolText(s) + rest;
    SymbolHead(s);
    SymbolsAreShort(s);
    assert t[0] == SymbolText(s)[0];
    if IsSingle(s) {
      SingleIsRead(s);
    } else {
      OperatorIsRead(s, rest);
    }
    if s == Slash && rest != "" {
      assert t[1] == rest[0];
    }
  }

  /** The symbol read at the head of a text is one the text begins with, and no longer one is. */
  lemma LongestSymbol(t: string, s: Symbol)
    requires t != ""
    ensures LexSymbol(t).Some? ==> SymbolText(LexSymbol(t).value) <= t
    ensures SymbolText(s) <= t ==> LexSymbol(t).Some? && |SymbolText(s)| <= |SymbolText(LexSymbol(t).value)|
  {
    hide SingleSymbol, Operator, SymbolText;
    SymbolsAreShort(s);
    if LexSymbol(t).Some? {
      SymbolBegins(t);
      SymbolsAreShort(LexSymbol(t).value);
    }
    if SymbolText(s) <= t {
      SymbolHead(s);
      assert t[0] == SymbolText(s)[0];
      if IsSingle(s) {
        SingleIsRead(s);
      } else {
        DoubleIsRead(t, s);
      }
    }
  }

  lemma SymbolBegins(t: string)
    requires t != "" && LexSymbol(t).Some?
    ensures SymbolText(LexSymbol(t).value) <= t
  {}

  lemma DoubleIsRead(t: string, s: Symbol)
    requires t != "" && SymbolText(s) <= t && !IsSingle(s)
    ensures LexSymbol(t).Some? && SymbolWidth(s) <= SymbolWidth(LexSymbol(t).value)
  {}

  lemma {:induction false} ReplaceJoins(a: string, b: string, c: char, text: string)
    ensures Replace(a + b, c, text) == Replace(a, c, text) + Replace(b, c, text)
  {
    if a == "" {
      assert a + b == b;
    } else {
      assert (a + b)[1..] == a[1..] + b;
      ReplaceJoins(a[1..], b, c, text);
    }
  }

  lemma EscapeJoins(c: char, s: string)
    ensures Escape([c] + s) == Escape([c]) + Escape(s)
    ensures Escape([c]) == if c == '\\' then "\\\\" else if c == '"' then "\\\"" else [c]
  {
    ReplaceJoins([c], s, '\\', "\\\\");
    ReplaceJoins(Replace([c], '\\', "\\\\"), Replace(s, '\\', "\\\\"), '"', "\\\"");
    assert [c][1..] == "";
    if c == '\\' {
      ReplaceJoins("\\", "\\", '"', "\\\"");
      assert "\\\\" == "\\" + "\\";
      assert "\\"[1..] == "";
    }
  }

  /** An escaped string, up to its closing quote, stands for the string. */
  lemma {:induction false} EscapeIsRead(s: string, rest: string)
    ensures StringBody(Escape(s) + "\"" + rest) == Some((s, |Escape(s)| + 1))
  {
    hide UnicodeEscape;
    var t := Escape(s) + "\"" + rest;
    if s != "" {
      EscapeIsRead(s[1..], rest);
      EscapeJoins(s[0], s[1..]);
      assert s == [s[0]] + s[1..];
      hide Escape;
      var e := Escape([s[0]]);
      assert t[|e|..] == Escape(s[1..]) + "\"" + rest;
      if |e| == 2 {
        assert t[1..][1..] == t[2..];
      }
    }
  }

  // ----- any token -----

  /** A float is printed with its point, and what is printed stands for the same value. */
  predicate Prints(k: TokenKind, printFloat: string -> string) {
    k.Float? ==> IsFloat(printFloat(k.text)) && printFloat(printFloat(k.text)) == printFloat(k.text)
  }

  lemma RenderBegins(k: TokenKind, text: string, printFloat: string -> string)
    requires Shape(k, text) && Prints(k, printFloat)
    ensures var s := Render(k, text, printFloat);
      s != "" && !IsWhitespace(s[0]) && (BeginsLikeWord(k) <==> IsWordChar(s[0])) && (k.Int? || k.Float? <==> IsDigit(s[0]))
    ensures var s := Render(k, text, printFloat);
      (k.Str? ==> s[0] == '"') && s[0] != '`' && (s[0] == '/' ==> k == Sym(Slash))
  {
    hide KeywordText, SymbolText, Decimal, Escape, DigitsLen, HtmlBody;
    match k
    case Word(w) => KeywordHead(w);
    case Sym(s) => SymbolHead(s);
    case HtmlLit(_) => assert text[0] == text[..5][0] == 'h';
    case Int(n) => assert IsDigit(Decimal(n)[0]);
    case Float(_) =>
    case Str(_) =>
    case Ident(_) =>
  }

  lemma KeywordHead(w: Keyword)
    ensures IsWord(KeywordText(w)) && !IsDigit(KeywordText(w)[0]) && KeywordText(w) != "html"
  {}

  /** An integer that does not fit is refused. */
  lemma BigIntIsRefused(k: TokenKind, text: string, rest: string, printFloat: string -> string)
    requires !Fits(k) && Stops(k, rest)
    ensures var s := Render(k, text, printFloat); LexToken(s + rest).None? && NoTrivia(s + rest)
  {
    hide LexToken, LineLen, BlockEnd, Stops, Decimal;
    IntIsRead(k.n, rest);
    assert (Decimal(k.n) + rest)[0] == Decimal(k.n)[0] && IsDigit(Decimal(k.n)[0]);
  }

  /** Every token is read back if it stops where the rest begins. */
  lemma TokenIsRead(k: TokenKind, text: string, rest: string, printFloat: string -> string)
    requires Shape(k, text) && Fits(k) && Prints(k, printFloat) && Stops(k, rest)
    ensures var s := Render(k, text, printFloat);
      LexToken(s + rest) == Some((Reprinted(k, printFloat), |s|)) && NoTrivia(s + rest)
  {
    hide KeywordText, SymbolText, Decimal, IsHtml, IsFloat, KeywordFromStr, LexToken, LineLen, BlockEnd;
    var s := Render(k, text, printFloat);
    RenderBegins(k, text, printFloat);
    assert (s + rest)[0] == s[0];
    match k
    case Int(n) => IntIsRead(n, rest);
    case Float(_) => FloatIsRead(s, rest);
    case Str(v) => StringIsRead(v, rest);
    case Ident(name) => WordIsRead(name, rest);
    case HtmlLit(parts) => HtmlIsRead(text, parts, rest);
    case Word(w) =>
      KeywordHead(w);
      KeywordRoundTrip(w);
      WordIsRead(s, rest);
    case Sym(symbol) => SymbolIsRead(symbol, rest);
  }

  lemma StringIsRead(v: string, rest: string)
    ensures LexToken("\"" + Escape(v) + "\"" + rest) == Some((Str(v), |Escape(v)| + 2))
  {
    hide StringBody, Escape;
    EscapeIsRead(v, rest);
    var t := "\"" + Escape(v) + "\"" + rest;
    assert t[1..] == Escape(v) + "\"" + rest;
  }

  // ----- tokens that do not stop -----

  function WordText(k: TokenKind): string
    requires k.Ident? || k.Word?
  {
    if k.Ident? then k.name else KeywordText(k.keyword)
  }

  lemma WordIsMisread(s: string, k: TokenKind, rest: string)
    requires (k.Ident? || k.Word?) && WordText(k) == s && IsWord(s) && rest != "" && IsWordChar(rest[0])
    ensures LexToken(s + rest).None? || LexToken(s + rest).value.0 != k
  {
    hide KeywordText, HtmlBody, StringBody, LexNumber, LexSymbol;
    var t := s + rest;
    assert t[|s|] == rest[0];
    forall i | 0 <= i <= |s| ensures IsWordChar(t[i]) {
      assert t[i] == if i < |s| then s[i] else rest[0];
    }
    assert |t[..WordLen(t)]| > |s|;
  }

  lemma NumberIsMisread(n: nat, rest: string)
    requires HasFraction(rest, 0)
    ensures LexToken(Decimal(n) + rest).Some? ==> LexToken(Decimal(n) + rest).value.0.Float?
  {
    var s := Decimal(n);
    var t := s + rest;
    assert IsDigit(s[0]) && t[0] == s[0];
    assert t[..|s|] == s;
    DigitsEnd(t, |s|);
    assert HasFraction(t, |s|);
  }

  lemma SymbolIsMisread(s: Symbol, rest: string)
    requires s == Question || s == Dot || s == Bang
    requires rest != "" && Continues(s, rest[0])
    ensures var t := SymbolText(s) + rest;
      LexToken(t) == Some((Sym(if s == Question then QuestionQuestion else if s == Dot then DotDot else NotEq), 2))
  {
    hide LexNumber, StringBody, HtmlBody, WordKind;
    var t := SymbolText(s) + rest;
    assert t[1] == rest[0];
  }

  // ----- tokens printed without a space -----

  lemma SymbolHeads(s: Symbol)
    ensures SymbolText(s) != ""
    ensures SymbolText(s)[0] == '?' <==> s == Question || s == QuestionQuestion
    ensures SymbolText(s)[0] == '.' <==> s == Dot || s == DotDot
    ensures SymbolText(s)[0] == '=' <==> s == Equals || s == EqEq || s == FatArrow
    ensures SymbolText(s)[0] == '>' <==> s == Gt || s == GtEq
    ensures SymbolText(s)[0] == '|' <==> s == Pipe || s == PipePipe
    ensures SymbolText(s)[0] == '/' || SymbolText(s)[0] == '*' <==> s == Slash || s == Star
  {}

  lemma OperatorsStandApart(prev: Symbol, s: Symbol)
    requires IsOperator(Sym(prev)) && NoSpaceBefore(Sym(s))
    ensures !Continues(prev, SymbolText(s)[0])
  {
    SymbolHeads(s);
    hide SymbolText;
  }

  lemma NeedsNoSpace(prev: Symbol, s: Symbol)
    requires !NeedsSpaceBefore(Sym(prev), Sym(s))
    ensures IsOperator(Sym(prev)) ==> NoSpaceBefore(Sym(s))
    ensures prev == Question ==> s != QuestionQuestion
  {}

  lemma OthersGoOnInNothing(prev: Symbol, c: char, k: TokenKind)
    requires !IsOperator(Sym(prev)) && prev != Question && prev != Dot && prev != Bang
    ensures !Continues(prev, c) && !RunTogether(Sym(prev), k)
  {}

  lemma OperatorsRunIntoNothing(prev: Symbol, k: TokenKind)
    requires IsOperator(Sym(prev))
    ensures !RunTogether(Sym(prev), k)
  {}

  lemma RunIntoSymbols(prev: Symbol, s: Symbol)
    requires (prev == Question && s != QuestionQuestion) || prev == Dot || prev == Bang
    ensures SymbolText(s) != "" && (Continues(prev, SymbolText(s)[0]) <==> RunTogether(Sym(prev), Sym(s)))
  {
    hide SymbolText;
    SymbolHeads(s);
  }

  lemma SymbolsRunTogether(prev: Symbol, s: Symbol)
    requires IsOperator(Sym(prev)) ==> NoSpaceBefore(Sym(s))
    requires prev == Question ==> s != QuestionQuestion
    ensures SymbolText(s) != "" && (Continues(prev, SymbolText(s)[0]) <==> RunTogether(Sym(prev), Sym(s)))
  {
    hide SymbolText, NoSpaceBefore, Continues, RunTogether, IsOperator;
    if prev == Question || prev == Dot || prev == Bang {
      RunIntoSymbols(prev, s);
    } else {
      SymbolHead(s);
      if IsOperator(Sym(prev)) {
        OperatorsStandApart(prev, s);
        OperatorsRunIntoNothing(prev, Sym(s));
      } else {
        OthersGoOnInNothing(prev, SymbolText(s)[0], Sym(s));
      }
    }
  }

  lemma SymbolStops(prev: Symbol, k: TokenKind, text: string, printFloat: string -> string)
    requires Shape(k, text) && Prints(k, printFloat) && !NeedsSpaceBefore(Sym(prev), k)
    ensures Render(k, text, printFloat) != ""
    ensures Continues(prev, Render(k, text, printFloat)[0]) <==> RunTogether(Sym(prev), k)
  {
    hide SymbolText, KeywordText, Decimal, IsHtml, IsFloat, KeywordFromStr, NeedsSpaceBefore, DigitsLen;
    RenderBegins(k, text, printFloat);
    if k.Sym? {
      assert !NeedsSpaceBefore(Sym(prev), Sym(k.symbol));
      NeedsNoSpace(prev, k.symbol);
      SymbolsRunTogether(prev, k.symbol);
    }
  }

  lemma DotAfterInt(k: TokenKind, text: string, rest: string, printFloat: string -> string)
    requires Shape(k, text) && Prints(k, printFloat)
    ensures var next := Render(k, text, printFloat) + rest;
      HasFraction(next, 0) <==> k == Sym(Dot) && rest != "" && IsDigit(rest[0])
  {
    hide KeywordText, Decimal, IsHtml, IsFloat, KeywordFromStr, DigitsLen;
    var s := Render(k, text, printFloat);
    RenderBegins(k, text, printFloat);
    assert (s + rest)[0] == s[0];
    if k == Sym(Dot) {
      assert rest != "" ==> (s + rest)[1] == rest[0];
    } else if k == Sym(DotDot) {
      assert (s + rest)[1] == s[1] == '.';
    } else if k.Sym? {
      SymbolHeads(k.symbol);
    }
  }

  /** Does the token after `prev`, printed without a space, continue it? An integer is continued by a fraction. */
  lemma StopsUnlessRunTogether(prev: TokenKind, before: string, k: TokenKind, text: string, rest: string, printFloat: string -> string)
    requires Shape(prev, before) && Shape(k, text) && Prints(k, printFloat) && !NeedsSpaceBefore(prev, k)
    ensures var next := Render(k, text, printFloat) + rest;
      if RunTogether(prev, k) || (prev.Int? && k == Sym(Dot) && rest != "" && IsDigit(rest[0])) then Continued(prev, next)
      else Stops(prev, next)
  {
    hide SymbolText, KeywordText, Decimal, IsHtml, IsFloat, KeywordFromStr, DigitsLen;
    var s := Render(k, text, printFloat);
    RenderBegins(k, text, printFloat);
    assert (s + rest)[0] == s[0];
    match prev
    case Sym(symbol) => SymbolStops(symbol, k, text, printFloat);
    case Int(_) => DotAfterInt(k, text, rest, printFloat);
    case _ =>
  }

  /** What follows makes another token of `prev`. */
  predicate Continued(prev: TokenKind, next: string) {
    next != "" &&
    match prev
    case Int(_) => HasFraction(next, 0)
    case Sym(s) => (s == Question || s == Dot || s == Bang) && Continues(s, next[0])
    case Ident(_) => IsWordChar(next[0])
    case Word(_) => IsWordChar(next[0])
    case _ => false
  }

  lemma ContinuedIsMisread(prev: TokenKind, text: string, next: string, printFloat: string -> string)
    requires Shape(prev, text) && Prints(prev, printFloat) && Continued(prev, next)
    ensures var s := Render(prev, text, printFloat);
      (LexToken(s + next).None? || LexToken(s + next).value.0 != prev) && NoTrivia(s + next) && !prev.Float?
  {
    hide SymbolText, KeywordText, Decimal, IsHtml, IsFloat, KeywordFromStr, LexToken;
    var s := Render(prev, text, printFloat);
    RenderBegins(prev, text, printFloat);
    assert (s + next)[0] == s[0];
    match prev
    case Int(n) => NumberIsMisread(n, next);
    case Sym(symbol) => SymbolIsMisread(symbol, next);
    case Ident(name) => WordIsMisread(name, prev, next);
    case Word(w) =>
      KeywordHead(w);
      WordIsMisread(s, prev, next);
  }

  // ----- how printed tokens end -----

  predicate EndsVisibly(s: string) { s != "" && !IsWhitespace(s[|s| - 1]) }

  lemma {:induction false} HtmlBodyEnds(t: string, text: string)
    requires HtmlBody(t, text).Some?
    ensures t[HtmlBody(t, text).value.1 - 1] == '`'
    decreases |t|
  {
    hide HtmlExpr;
    if t[0] == '`' {
    } else if t[0] == '\\' {
      HtmlBodyEnds(t[2..], text + [HtmlEscape(t).value]);
    } else if t[0] == '$' && CharAt(t, 1, '{') {
      HtmlBodyEnds(t[2 + HtmlExpr(t[2..], 0).value.1..], "");
    } else {
      HtmlBodyEnds(t[1..], text + [t[0]]);
    }
  }

  lemma SymbolEnds(s: Symbol)
    ensures EndsVisibly(SymbolText(s))
  {}

  lemma RenderEndsVisibly(k: TokenKind, text: string, printFloat: string -> string)
    requires Shape(k, text) && Prints(k, printFloat)
    ensures EndsVisibly(Render(k, text, printFloat))
  {
    hide KeywordText, SymbolText, Decimal, Escape, HtmlBody;
    match k
    case Int(n) => assert IsDigit(Decimal(n)[|Decimal(n)| - 1]);
    case Float(s) => FloatEndsInDigit(printFloat(s));
    case Str(_) =>
    case Ident(_) =>
    case Word(w) => KeywordHead(w);
    case Sym(s) => SymbolEnds(s);
    case HtmlLit(_) =>
      HtmlBodyEnds(text[5..], "");
      assert text[5..][|text| - 6] == text[|text| - 1];
  }

  lemma FloatEndsInDigit(s: string)
    requires IsFloat(s)
    ensures IsDigit(s[|s| - 1])
  {
    var fraction := s[DigitsLen(s) + 1..];
    assert fraction[0] == s[DigitsLen(s) + 1];
    assert fraction[..|fraction|] == fraction;
    assert fraction[|fraction| - 1] == s[|s| - 1];
  }
}
