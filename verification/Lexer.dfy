/** The lexer (`lexer.rs`): a cursor over the characters, proved to read what `Lexing` defines. */
module Lexer {
  import opened Chars
  import opened Lexing
  import opened LexSteps
  import opened Locality
  import opened Spans
  import opened Tokens
  import opened Wrappers

  class Lexer {
    const chars: string
    var pos: nat
    var line: nat
    var col: nat

    constructor (source: string)
      ensures Valid() && chars == source && pos == 0
    {
      chars := source;
      pos, line, col := 0, 1, 1;
    }

    ghost predicate Valid()
      reads this
    {
      pos <= |chars| && (line, col) == Position(chars[..pos])
    }

    ghost function Rest(): string
      reads this
      requires pos <= |chars|
    {
      chars[pos..]
    }

    function Peek(offset: nat): Option<char>
      reads this
    {
      if pos + offset < |chars| then Some(chars[pos + offset]) else None
    }

    /** The cursor moved over what `found` tells, from `from` on, and `r` is the answer; or there is an error. */
    ghost predicate Read<T>(found: Option<(T, nat)>, from: nat, r: Result<T, LexError>)
      reads this
    {
      && r.Success? == found.Some?
      && (r.Success? ==> r.value == found.value.0 && pos == from + found.value.1)
      && (r.Failure? ==> Placed(r.error.span, chars))
    }

    method Advance() returns (c: Option<char>)
      requires Valid()
      modifies this
      ensures Valid()
      ensures c == old(Peek(0)) && pos == if c.Some? then old(pos) + 1 else old(pos)
    {
      c := Peek(0);
      if c.Some? {
        assert chars[..pos + 1][..pos] == chars[..pos];
        pos := pos + 1;
        if c.value == '\n' {
          line, col := line + 1, 1;
        } else {
          col := col + 1;
        }
      }
    }

    // ----- trivia -----

    method SkipLine()
      requires Valid()
      modifies this
      ensures Valid() && pos == old(pos) + LineLen(old(Rest()))
    {
      ghost var start := pos;
      while pos < |chars| && chars[pos] != '\n'
        invariant Valid() && start <= pos
        invariant '\n' !in chars[start..pos]
        decreases |chars| - pos
      {
        assert chars[start..pos + 1] == chars[start..pos] + [chars[pos]];
        var _ := Advance();
      }
      Slices(chars, start, pos - start);
      LineEnds(chars[start..], pos - start);
    }

    method SkipBlock() returns (r: Result<(), LexError>)
      requires Valid() && Peek(0) == Some('/') && Peek(1) == Some('*')
      modifies this
      ensures Valid() && old(pos) + 2 <= |chars|
      ensures Read(Spent(BlockEnd(chars[old(pos) + 2..]), 2), old(pos), r)
    {
      hide Position, BlockEnd, BlockSoFar;
      var start, startLine, startCol := pos, line, col;
      var _ := Advance();
      var _ := Advance();
      ghost var body := pos;
      BlockBegins(chars, body);
      while !(Peek(0) == Some('*') && Peek(1) == Some('/'))
        invariant Valid() && body <= pos && BlockSoFar(chars, body, pos)
        decreases |chars| - pos
      {
        BlockGoesOn(chars, body, pos);
        if Peek(0).None? {
          return Failure(LexError(Span(start, start + 2, startLine, startCol)));
        }
        var _ := Advance();
      }
      BlockGoesOn(chars, body, pos);
      var _ := Advance();
      var _ := Advance();
      r := Success(());
    }

    method SkipTrivia() returns (r: Result<(), LexError>)
      requires Valid()
      modifies this
      ensures Valid()
      ensures Read(TriviaSpent(old(Rest())), old(pos), r)
    {
      hide Position, Trivia, Width, BlockEnd, LineLen, IsWhitespace, TriviaSpent;
      ghost var start := pos;
      while true
        invariant Valid() && start <= pos
        invariant TriviaSpent(chars[start..]) == Moved(TriviaSpent(chars[pos..]), pos - start)
        decreases |chars| - pos
      {
        ghost var t := chars[pos..];
        ghost var from := pos;
        TriviaStep(t);
        if pos == |chars| {
          return Success(());
        } else if IsWhitespace(chars[pos]) {
          var _ := Advance();
        } else if chars[pos] == '/' && Peek(1) == Some('/') {
          SkipLine();
        } else if chars[pos] == '/' && Peek(1) == Some('*') {
          var b := SkipBlock();
          if b.Failure? {
            return Failure(b.error);
          }
        } else {
          return Success(());
        }
        Slices(chars, from, pos - from);
      }
    }

    // ----- numbers, words, strings, punctuation -----

    method SkipDigits()
      requires Valid()
      modifies this
      ensures Valid() && pos == old(pos) + DigitsLen(old(Rest()))
    {
      hide Position;
      ghost var start := pos;
      while pos < |chars| && IsDigit(chars[pos])
        invariant Valid() && start <= pos
        invariant forall i | start <= i < pos :: IsDigit(chars[i])
        decreases |chars| - pos
      {
        var _ := Advance();
      }
      Slices(chars, start, pos - start);
      DigitsEnd(chars[start..], pos - start);
    }

    method LexNumber() returns (r: Result<TokenKind, LexError>)
      requires Valid() && pos < |chars| && IsDigit(chars[pos])
      modifies this
      ensures Valid() && Read(Lexing.LexNumber(old(Rest())), old(pos), r)
    {
      hide Position, ParseInt, DigitsLen, AllDigits, IsDigit, Lexing.LexNumber;
      var start, startLine, startCol := pos, line, col;
      NumberIsRead(chars, start);
      SkipDigits();
      if HasFraction(chars, pos) {
        var _ := Advance();
        SkipDigits();
        return Success(Float(chars[start..pos]));
      }
      var value := ParseInt(chars[start..pos]);
      if value.None? {
        return Failure(LexError(Span(start, pos, startLine, startCol)));
      }
      r := Success(value.value);
    }

    method LexIdentOrKeyword() returns (kind: TokenKind)
      requires Valid()
      modifies this
      ensures Valid() && pos == old(pos) + WordLen(old(Rest())) && kind == WordKind(chars[old(pos)..pos])
    {
      hide Position, WordKind;
      var start := pos;
      while pos < |chars| && IsWordChar(chars[pos])
        invariant Valid() && start <= pos
        invariant forall i | start <= i < pos :: IsWordChar(chars[i])
        decreases |chars| - pos
      {
        var _ := Advance();
      }
      WordEnds(chars[start..], pos - start);
      kind := WordKind(chars[start..pos]);
    }

    /** The four digits of a unicode escape, whose backslash is at `start`. */
    method LexUnicode(start: nat, startLine: nat, startCol: nat) returns (r: Result<char, LexError>)
      requires Valid() && start < pos && (startLine, startCol) == Position(chars[..start])
      modifies this
      ensures Valid() && Read(UnicodeRead(old(Rest())), old(pos), r)
    {
      hide Position, HexValue, HexNumber;
      ghost var from := pos;
      var hex := "";
      for i := 0 to 4
        invariant Valid() && pos == from + i
        invariant hex == chars[from..from + i] && AllHex(hex)
      {
        var c := Advance();
        if c.None? || !IsHexDigit(c.value) {
          NotHex(chars[from..], i);
          return Failure(LexError(Span(start, pos, startLine, startCol)));
        }
        hex := hex + [c.value];
      }
      Slices(chars, from, 4);
      FourDigits(chars[from..]);
      var code := HexNumber(hex);
      if 0xd800 <= code < 0xe000 {
        return Failure(LexError(Span(start, pos, startLine, startCol)));
      }
      r := Success(code as char);
    }

    method LexString() returns (r: Result<TokenKind, LexError>)
      requires Valid() && Peek(0) == Some('"')
      modifies this
      ensures Valid() && Read(StringRead(old(Rest())), old(pos), r)
    {
      hide Position, StringBody, StringEscape;
      var start, startLine, startCol := pos, line, col;
      var _ := Advance();
      var value := "";
      ghost var body := pos;
      ShiftedNothing(StringBody(chars[body..]));
      while true
        invariant Valid() && start < body <= pos
        invariant StringBody(chars[body..]) == Shifted(value, StringBody(chars[pos..]), pos - body)
        decreases |chars| - pos
      {
        ghost var from := pos;
        ghost var t := chars[pos..];
        StringStep(t);
        var c := Advance();
        if c.None? {
          return Failure(LexError(Span(start, start + 1, startLine, startCol)));
        }
        Slices(chars, from, 1);
        if c.value == '"' {
          Slices(chars, start, 1);
          assert value + "" == value;
          return Success(Str(value));
        } else if c.value == '\\' {
          var e := LexEscape(start, startLine, startCol);
          if e.Failure? {
            return Failure(e.error);
          }
          Slices(chars, from, pos - from);
          ShiftedTwice(value, [e.value], StringBody(chars[pos..]), from - body, pos - from);
          value := value + [e.value];
        } else {
          ShiftedTwice(value, [c.value], StringBody(chars[pos..]), from - body, 1);
          value := value + [c.value];
        }
      }
    }

    /** The escape whose backslash was just read, in the string that began at `start`. */
    method LexEscape(start: nat, startLine: nat, startCol: nat) returns (r: Result<char, LexError>)
      requires Valid() && start + 1 < pos && chars[pos - 1] == '\\' && (startLine, startCol) == Position(chars[..start])
      modifies this
      ensures Valid() && Read(StringEscape(old(Rest())), old(pos), r)
    {
      hide UnicodeEscape;
      var escStart, escLine, escCol := pos - 1, line, col - 1;
      assert chars[..pos][..pos - 1] == chars[..pos - 1];
      hide Position;
      ghost var from := pos;
      var c := Advance();
      if c.None? {
        return Failure(LexError(Span(start, start + 1, startLine, startCol)));
      }
      Slices(chars, from, 1);
      match c.value {
        case 'n' => r := Success('\n');
        case 't' => r := Success('\t');
        case '\\' => r := Success('\\');
        case '"' => r := Success('"');
        case 'u' => r := LexUnicode(escStart, escLine, escCol);
        case _ => r := Failure(LexError(Span(escStart, pos, escLine, escCol)));
      }
    }

    /** Consumes `second` if it comes next, the character before being read already. */
    method OneOrTwo(second: char, one: Symbol, two: Symbol) returns (s: Symbol)
      requires Valid() && 0 < pos && SymbolWidth(one) == 1 && SymbolWidth(two) == 2
      modifies this
      ensures Valid()
      ensures s == Lexing.OneOrTwo(chars[old(pos) - 1..], second, one, two) && pos == old(pos) - 1 + SymbolWidth(s)
    {
      hide Position;
      if Peek(0) == Some(second) {
        var _ := Advance();
        s := two;
      } else {
        s := one;
      }
    }

    method LexPunct() returns (r: Result<TokenKind, LexError>)
      requires Valid() && pos < |chars|
      modifies this
      ensures Valid() && Read(SymbolRead(old(Rest())), old(pos), r)
    {
      hide Position, Operator;
      var start, startLine, startCol := pos, line, col;
      var c := Advance();
      var s: Symbol;
      match c.value {
        case '{' => s := LBrace;
        case '}' => s := RBrace;
        case '(' => s := LParen;
        case ')' => s := RParen;
        case '[' => s := LBracket;
        case ']' => s := RBracket;
        case ',' => s := Comma;
        case ';' => s := Semi;
        case ':' => s := Colon;
        case '@' => s := At;
        case '+' => s := Plus;
        case '*' => s := Star;
        case '/' => s := Slash;
        case '%' => s := Percent;
        case _ =>
          var operator := LexOperator(c.value);
          if operator.None? {
            return Failure(LexError(Span(start, pos, startLine, startCol)));
          }
          s := operator.value;
      }
      SymbolsAreShort(s);
      r := Success(Sym(s));
    }

    /** The rest of `LexPunct`, for the characters that may go on. */
    method LexOperator(c: char) returns (s: Option<Symbol>)
      requires Valid() && 0 < pos && c == chars[pos - 1]
      modifies this
      ensures Valid() && old(pos) <= pos
      ensures s == Operator(chars[old(pos) - 1..]) && (s.Some? ==> pos == old(pos) - 1 + SymbolWidth(s.value))
    {
      hide Position;
      var one: Symbol;
      match c {
        case '?' => one := OneOrTwo('?', Question, QuestionQuestion);
        case '.' => one := OneOrTwo('.', Dot, DotDot);
        case '<' => one := OneOrTwo('=', Lt, LtEq);
        case '>' => one := OneOrTwo('=', Gt, GtEq);
        case '=' =>
          if Peek(0) == Some('=') {
            var _ := Advance();
            one := EqEq;
          } else {
            one := OneOrTwo('>', Equals, FatArrow);
          }
        case '!' => one := OneOrTwo('=', Bang, NotEq);
        case '-' => one := OneOrTwo('>', Minus, Arrow);
        case '&' =>
          if Peek(0) != Some('&') {
            return None;
          }
          var _ := Advance();
          one := AmpAmp;
        case '|' => one := OneOrTwo('|', Pipe, PipePipe);
        case _ => return None;
      }
      s := Some(one);
    }

    // ----- tokens, and html literals with tokens inside -----

    method NextToken() returns (r: Result<Token, LexError>)
      requires Valid()
      modifies this
      ensures Valid()
      ensures Read(Whole(Lexing.NextToken(old(Rest())), chars, old(pos)), old(pos), r)
      decreases |chars| - pos, 1
    {
      hide Position, LexToken, Trivia, Width;
      ghost var from := pos;
      ghost var t := chars[from..];
      var trivia := SkipTrivia();
      if trivia.Failure? {
        return Failure(trivia.error);
      }
      Slices(chars, from, pos - from);
      var start, startLine, startCol := pos, line, col;
      var c := Peek(0);
      if c.None? {
        return Success(Token(Eof, Span(start, start, startLine, startCol)));
      }
      var kind := LexKind();
      if kind.Failure? {
        return Failure(kind.error);
      }
      r := Success(Token(kind.value, Span(start, pos, startLine, startCol)));
    }

    method LexKind() returns (r: Result<TokenKind, LexError>)
      requires Valid() && pos < |chars|
      modifies this
      ensures Valid() && Read(LexToken(old(Rest())), old(pos), r)
      decreases |chars| - pos, 0
    {
      hide Position, Lexing.LexNumber, StringBody, LexSymbol, HtmlBody, WordKind;
      ghost var from := pos;
      ghost var t := chars[from..];
      Slices(chars, from, 1);
      if IsDigit(chars[pos]) {
        r := LexNumber();
      } else if IsWordStart(chars[pos]) {
        var word := LexIdentOrKeyword();
        Slices(chars, from, pos - from);
        HtmlIsNoKeyword(t[..pos - from]);
        if word == Ident("html") && Peek(0) == Some('`') {
          r := LexHtmlLiteral();
        } else {
          r := Success(word);
        }
      } else if chars[pos] == '"' {
        r := LexString();
      } else {
        r := LexPunct();
      }
    }

    method LexHtmlLiteral() returns (r: Result<TokenKind, LexError>)
      requires Valid() && Peek(0) == Some('`') && 0 < pos
      modifies this
      ensures Valid() && Read(HtmlRead(old(Rest())), old(pos), r)
      decreases |chars| - pos
    {
      hide Position, HtmlBody, EscapeRead, InterpolationRead, HtmlSoFar;
      var openStart, openLine, openCol := pos, line, col;
      var _ := Advance();
      var parts := [];
      var text := "";
      ghost var body := pos;
      assert chars[openStart..][1..] == chars[body..];
      HtmlBegins(chars, body);
      while true
        invariant Valid() && openStart < body <= pos && HtmlSoFar(chars, body, pos, parts, text)
        decreases |chars| - pos
      {
        HtmlEnds(chars, body, pos, parts, text);
        var c := Peek(0);
        if c.None? {
          return Failure(LexError(Span(openStart, openStart + 1, openLine, openCol)));
        } else if c.value == '`' {
          var _ := Advance();
          parts := parts + [Text(text)];
          return Success(HtmlLit(parts));
        } else if c.value == '\\' {
          HtmlEscaped(chars, body, pos, parts, text);
          var escaped := LexHtmlEscape(openStart, openLine, openCol);
          if escaped.Failure? {
            return Failure(escaped.error);
          }
          text := text + [escaped.value];
        } else if c.value == '$' && Peek(1) == Some('{') {
          HtmlInterpolated(chars, body, pos, parts, text);
          parts := parts + [Text(text)];
          text := "";
          var tokens := LexInterpolation();
          if tokens.Failure? {
            return Failure(tokens.error);
          }
          parts := parts + [Expr(tokens.value)];
        } else {
          HtmlPlain(chars, body, pos, parts, text);
          text := text + [c.value];
          var _ := Advance();
        }
      }
    }

    /** An escape in the literal that began at `open`. */
    method LexHtmlEscape(open: nat, openLine: nat, openCol: nat) returns (r: Result<char, LexError>)
      requires Valid() && open < pos && Peek(0) == Some('\\') && (openLine, openCol) == Position(chars[..open])
      modifies this
      ensures Valid() && Read(EscapeRead(old(Rest())), old(pos), r)
    {
      hide Position;
      var start, startLine, startCol := pos, line, col;
      var _ := Advance();
      var c := Advance();
      if c.None? {
        return Failure(LexError(Span(open, open + 1, openLine, openCol)));
      }
      match c.value {
        case '`' => r := Success('`');
        case '$' => r := Success('$');
        case '\\' => r := Success('\\');
        case 'n' => r := Success('\n');
        case 't' => r := Success('\t');
        case _ => r := Failure(LexError(Span(start, pos, startLine, startCol)));
      }
    }

    /** A `${...}` up to its closing brace; it holds at least one token. */
    method LexInterpolation() returns (r: Result<seq<TokenKind>, LexError>)
      requires Valid() && Peek(0) == Some('$') && Peek(1) == Some('{')
      modifies this
      ensures Valid() && Read(Moved(InterpolationRead(chars[old(pos) + 2..]), 2), old(pos), r)
      decreases |chars| - pos
    {
      hide Position, HtmlExpr, Lexing.NextToken, HtmlBody;
      var _ := Advance();
      var _ := Advance();
      var start, startLine, startCol := pos, line, col;
      var tokens := [];
      var depth := 0;
      ShiftedNothing(HtmlExpr(chars[pos..], 0));
      while true
        invariant Valid() && start <= pos && depth >= 0
        invariant HtmlExpr(chars[start..], 0) == Shifted(tokens, HtmlExpr(chars[pos..], depth), pos - start)
        decreases |chars| - pos
      {
        ghost var from := pos;
        ExprStep(chars[from..], depth);
        var token := NextToken();
        if token.Failure? {
          return Failure(token.error);
        }
        Slices(chars, from, pos - from);
        var kind := token.value.kind;
        if kind == Eof {
          return Failure(LexError(Span(start, pos, startLine, startCol)));
        } else if kind == Sym(LBrace) {
          depth := depth + 1;
        } else if kind == Sym(RBrace) && depth == 0 {
          assert tokens + [] == tokens;
          break;
        } else if kind == Sym(RBrace) {
          depth := depth - 1;
        }
        tokens := tokens + [kind];
        ShiftedTwice(tokens[..|tokens| - 1], [kind], HtmlExpr(chars[pos..], depth), from - start, pos - from);
      }
      if tokens == [] {
        return Failure(LexError(Span(start, pos, startLine, startCol)));
      }
      r := Success(tokens);
    }

    // ----- a whole text -----

    method Run() returns (r: Result<seq<Token>, LexError>)
      requires Valid() && pos == 0
      modifies this
      ensures Valid()
      ensures r.Success? == LexAll(chars).Some?
      ensures r.Success? ==> r.value == TokensOf(LexAll(chars).value, chars, 0)
      ensures r.Failure? ==> Placed(r.error.span, chars)
    {
      hide Position, Lexing.NextToken, LexAll, TokensOf;
      var tokens := [];
      assert chars[0..] == chars;
      while true
        invariant Valid()
        invariant LexAll(chars).Some? == LexAll(chars[pos..]).Some?
        invariant LexAll(chars).Some? ==>
          TokensOf(LexAll(chars).value, chars, 0) == tokens + TokensOf(LexAll(chars[pos..]).value, chars, pos)
        decreases |chars| - pos
      {
        ghost var from := pos;
        RunStep(chars, from);
        var token := NextToken();
        if token.Failure? {
          return Failure(token.error);
        }
        tokens := tokens + [token.value];
        if token.value.kind == Eof {
          break;
        }
        Slices(chars, from, pos - from);
      }
      r := Success(tokens);
    }
  }
}
