/** What the lexer computes (`lexer.rs`), as functions of the text that is still to be read.
    Each answers with what was found and how many characters it took; `None` is a lexical error. */
module Lexing {
  import opened Chars
  import opened Tokens
  import opened Wrappers

  const MAX_INT64: nat := 0x7fff_ffff_ffff_ffff

  predicate StartsWith(t: string, c: char) { t != "" && t[0] == c }

  predicate CharAt(t: string, i: nat, c: char) { i < |t| && t[i] == c }

  // ----- trivia -----

  /** Length of the line comment at the head of `t`, its newline left out. */
  function LineLen(t: string): (n: nat)
    ensures n <= |t| && '\n' !in t[..n] && (n < |t| ==> t[n] == '\n')
  {
    if t == "" || t[0] == '\n' then 0 else 1 + LineLen(t[1..])
  }

  /** Length up to and including the first star and slash in `t`. */
  function BlockEnd(t: string): (r: Option<nat>)
    ensures r.Some? ==> 2 <= r.value <= |t|
  {
    if |t| < 2 then None
    else if t[0] == '*' && t[1] == '/' then Some(2)
    else
      var rest := BlockEnd(t[1..]);
      if rest.None? then None else Some(1 + rest.value)
  }

  /** One element of trivia: a white-space character, a line comment or a block comment. */
  datatype Piece = White(c: char) | Line(text: string) | Block(text: string)

  function PieceText(p: Piece): string {
    match p
    case White(c) => [c]
    case Line(text) => text
    case Block(text) => text
  }

  /** The piece of trivia at the head of `t`, if there is one; an unfinished block comment is an error. */
  function HeadPiece(t: string): (r: Result<Option<Piece>, ()>)
    ensures r.Success? && r.value.Some? ==> 0 < |PieceText(r.value.value)| <= |t| && PieceText(r.value.value) == t[..|PieceText(r.value.value)|]
  {
    if t == "" then Success(None)
    else if IsWhitespace(t[0]) then Success(Some(White(t[0])))
    else if t[0] == '/' && CharAt(t, 1, '/') then Success(Some(Line(t[..LineLen(t)])))
    else if t[0] == '/' && CharAt(t, 1, '*') then
      var end := BlockEnd(t[2..]);
      if end.None? then Failure(()) else Success(Some(Block(t[..2 + end.value])))
    else Success(None)
  }

  function Trivia(t: string): (r: Option<seq<Piece>>)
    ensures r.Some? ==> Width(r.value) <= |t|
    decreases |t|
  {
    var head := HeadPiece(t);
    if head.Failure? then None
    else if head.value.None? then Some([])
    else
      var rest := Trivia(t[|PieceText(head.value.value)|..]);
      if rest.None? then None else Some([head.value.value] + rest.value)
  }

  function Width(ps: seq<Piece>): nat { if ps == [] then 0 else |PieceText(ps[0])| + Width(ps[1..]) }

  function Flatten(ps: seq<Piece>): string { if ps == [] then "" else PieceText(ps[0]) + Flatten(ps[1..]) }

  // ----- words, numbers, strings, punctuation -----

  function WordLen(t: string): (n: nat)
    ensures n <= |t| && (forall i | 0 <= i < n :: IsWordChar(t[i])) && (n < |t| ==> !IsWordChar(t[n]))
  {
    if t == "" || !IsWordChar(t[0]) then 0 else 1 + WordLen(t[1..])
  }

  function DigitsLen(t: string): (n: nat)
    ensures n <= |t| && AllDigits(t[..n]) && (n < |t| ==> !IsDigit(t[n]))
  {
    if t == "" || !IsDigit(t[0]) then 0
    else
      var n := DigitsLen(t[1..]);
      assert t[..1 + n] == [t[0]] + t[1..][..n];
      1 + n
  }

  /** The point belongs to the number only if a digit follows it. */
  predicate HasFraction(t: string, n: nat) { CharAt(t, n, '.') && n + 1 < |t| && IsDigit(t[n + 1]) }

  /** `str::parse::<i64>` on digits. */
  function ParseInt(s: string): (r: Option<TokenKind>)
    requires AllDigits(s)
    ensures r.Some? ==> r.value.Int?
  {
    if Value(s) <= MAX_INT64 then Some(Int(Value(s))) else None
  }

  function LexNumber(t: string): (r: Option<(TokenKind, nat)>)
    requires t != "" && IsDigit(t[0])
    ensures r.Some? ==> 0 < r.value.1 <= |t|
  {
    var n := DigitsLen(t);
    if HasFraction(t, n) then
      var m := n + 1 + DigitsLen(t[n + 1..]);
      Some((Float(t[..m]), m))
    else
      var value := ParseInt(t[..n]);
      if value.None? then None else Some((value.value, n))
  }

  predicate IsHexDigit(c: char) { IsDigit(c) || 'a' <= c <= 'f' || 'A' <= c <= 'F' }

  function HexValue(c: char): nat
    requires IsHexDigit(c)
  {
    if IsDigit(c) then DigitValue(c) else if c <= 'F' then c as int - 'A' as int + 10 else c as int - 'a' as int + 10
  }

  /** The character with the four hexadecimal digits at the head of `t`; surrogates are no characters. */
  function UnicodeEscape(t: string): Option<char> {
    if |t| >= 4 && IsHexDigit(t[0]) && IsHexDigit(t[1]) && IsHexDigit(t[2]) && IsHexDigit(t[3]) then
      var code := 4096 * HexValue(t[0]) + 256 * HexValue(t[1]) + 16 * HexValue(t[2]) + HexValue(t[3]);
      if 0xd800 <= code < 0xe000 then None else Some(code as char)
    else None
  }

  /** The escape after a backslash: its character and its length. */
  function StringEscape(t: string): (r: Option<(char, nat)>)
    ensures r.Some? ==> 0 < r.value.1 <= |t|
  {
    if t == "" then None
    else if t[0] == 'n' then Some(('\n', 1))
    else if t[0] == 't' then Some(('\t', 1))
    else if t[0] == '\\' then Some(('\\', 1))
    else if t[0] == '"' then Some(('"', 1))
    else if t[0] == 'u' && UnicodeEscape(t[1..]).Some? then Some((UnicodeEscape(t[1..]).value, 5))
    else None
  }

  /** A string literal after its opening quote: its value, and its length with the closing quote. */
  function StringBody(t: string): (r: Option<(string, nat)>)
    ensures r.Some? ==> 0 < r.value.1 <= |t|
    decreases |t|
  {
    if t == "" then None
    else if t[0] == '"' then Some(("", 1))
    else if t[0] == '\\' then
      var e := StringEscape(t[1..]);
      if e.None? then None
      else
        var rest := StringBody(t[1 + e.value.1..]);
        if rest.None? then None else Some(([e.value.0] + rest.value.0, 1 + e.value.1 + rest.value.1))
    else
      var rest := StringBody(t[1..]);
      if rest.None? then None else Some(([t[0]] + rest.value.0, 1 + rest.value.1))
  }

  function OneOrTwo(t: string, second: char, one: Symbol, two: Symbol): Symbol { if CharAt(t, 1, second) then two else one }

  /** The symbols that neither begin another one nor end one. */
  function SingleSymbol(c: char): Option<Symbol> {
    match c
    case '{' => Some(LBrace)
    case '}' => Some(RBrace)
    case '(' => Some(LParen)
    case ')' => Some(RParen)
    case '[' => Some(LBracket)
    case ']' => Some(RBracket)
    case ',' => Some(Comma)
    case ';' => Some(Semi)
    case ':' => Some(Colon)
    case '@' => Some(At)
    case '+' => Some(Plus)
    case '*' => Some(Star)
    case '/' => Some(Slash)
    case '%' => Some(Percent)
    case _ => None
  }

  function Operator(t: string): Option<Symbol>
    requires t != ""
  {
    match t[0]
    case '?' => Some(OneOrTwo(t, '?', Question, QuestionQuestion))
    case '.' => Some(OneOrTwo(t, '.', Dot, DotDot))
    case '<' => Some(OneOrTwo(t, '=', Lt, LtEq))
    case '>' => Some(OneOrTwo(t, '=', Gt, GtEq))
    case '=' => Some(if CharAt(t, 1, '=') then EqEq else OneOrTwo(t, '>', Equals, FatArrow))
    case '!' => Some(OneOrTwo(t, '=', Bang, NotEq))
    case '-' => Some(OneOrTwo(t, '>', Minus, Arrow))
    case '&' => if CharAt(t, 1, '&') then Some(AmpAmp) else None
    case '|' => Some(OneOrTwo(t, '|', Pipe, PipePipe))
    case _ => None
  }

  function LexSymbol(t: string): (r: Option<Symbol>)
    requires t != ""
    ensures r.Some? ==> 0 < |SymbolText(r.value)| <= |t|
  {
    var s := SingleSymbol(t[0]);
    if s.Some? then s else Operator(t)
  }

  function WordKind(s: string): TokenKind {
    var k := KeywordFromStr(s);
    if k.Some? then Word(k.value) else Ident(s)
  }

  // ----- tokens, and html literals with tokens inside -----

  /** The token at the head of `t`, where trivia has been skipped. */
  function LexToken(t: string): (r: Option<(TokenKind, nat)>)
    requires t != ""
    ensures r.Some? ==> 0 < r.value.1 <= |t| && !r.value.0.Eof?
    decreases |t|, 0
  {
    if IsDigit(t[0]) then LexNumber(t)
    else if IsWordStart(t[0]) then
      var n := WordLen(t);
      if t[..n] == "html" && CharAt(t, n, '`') then
        var body := HtmlBody(t[n + 1..], "");
        if body.None? then None else Some((HtmlLit(body.value.0), n + 1 + body.value.1))
      else Some((WordKind(t[..n]), n))
    else if t[0] == '"' then
      var body := StringBody(t[1..]);
      if body.None? then None else Some((Str(body.value.0), 1 + body.value.1))
    else
      var s := LexSymbol(t);
      if s.None? then None else Some((Sym(s.value), |SymbolText(s.value)|))
  }

  /** Trivia and then one token; at the end of the text the token is `Eof`. */
  function NextToken(t: string): (r: Option<(TokenKind, nat)>)
    ensures r.Some? ==> r.value.1 <= |t| && (r.value.0.Eof? || 0 < r.value.1)
    decreases |t|, 1
  {
    var trivia := Trivia(t);
    if trivia.None? then None
    else
      var n := Width(trivia.value);
      if n == |t| then Some((Eof, n))
      else
        var token := LexToken(t[n..]);
        if token.None? then None else Some((token.value.0, n + token.value.1))
  }

  /** An html literal after its opening backquote, `text` being what was read of the current text part. */
  function HtmlBody(t: string, text: string): (r: Option<(seq<HtmlPart>, nat)>)
    ensures r.Some? ==> 0 < r.value.1 <= |t|
    decreases |t|, 3
  {
    if t == "" then None
    else if t[0] == '`' then Some(([Text(text)], 1))
    else if t[0] == '\\' then
      var c := HtmlEscape(t);
      if c.None? then None else Shifted([], HtmlBody(t[2..], text + [c.value]), 2)
    else if t[0] == '$' && CharAt(t, 1, '{') then
      var expr := HtmlExpr(t[2..], 0);
      if expr.None? || expr.value.0 == [] then None
      else Shifted([Text(text), Expr(expr.value.0)], HtmlBody(t[2 + expr.value.1..], ""), 2 + expr.value.1)
    else Shifted([], HtmlBody(t[1..], text + [t[0]]), 1)
  }

  function HtmlEscape(t: string): Option<char> {
    if |t| < 2 then None
    else if t[1] == '`' || t[1] == '$' || t[1] == '\\' then Some(t[1])
    else if t[1] == 'n' then Some('\n')
    else if t[1] == 't' then Some('\t')
    else None
  }

  function Shifted<T>(before: seq<T>, rest: Option<(seq<T>, nat)>, n: nat): (r: Option<(seq<T>, nat)>)
    ensures r.None? == rest.None?
  {
    if rest.None? then None else Some((before + rest.value.0, n + rest.value.1))
  }

  /** The tokens of a `${...}` up to and including the brace that closes it; `depth` braces are open. */
  function HtmlExpr(t: string, depth: nat): (r: Option<(seq<TokenKind>, nat)>)
    ensures r.Some? ==> 0 < r.value.1 <= |t|
    decreases |t|, 2
  {
    var token := NextToken(t);
    if token.None? || token.value.0.Eof? then None
    else
      var (kind, n) := token.value;
      if kind == Sym(RBrace) && depth == 0 then Some(([], n))
      else Shifted([kind], HtmlExpr(t[n..], DepthAfter(kind, depth)), n)
  }

  function DepthAfter(kind: TokenKind, depth: nat): nat {
    if kind == Sym(LBrace) then depth + 1 else if kind == Sym(RBrace) && depth > 0 then depth - 1 else depth
  }

  // ----- a whole text -----

  /** A token with the trivia before it and the text it was read from. */
  datatype Item = Item(gap: seq<Piece>, kind: TokenKind, text: string)

  /** All tokens but the last, `Eof`, and the trivia before that one. */
  datatype Lexed = Lexed(items: seq<Item>, tail: seq<Piece>)

  function LexAll(t: string): Option<Lexed>
    decreases |t|
  {
    var gap := Trivia(t);
    if gap.None? then None
    else
      var n := Width(gap.value);
      if n == |t| then Some(Lexed([], gap.value))
      else
        var token := LexToken(t[n..]);
        if token.None? then None
        else
          var (kind, m) := token.value;
          var rest := LexAll(t[n + m..]);
          if rest.None? then None else Some(rest.value.(items := [Item(gap.value, kind, t[n..n + m])] + rest.value.items))
  }
}
