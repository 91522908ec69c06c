/** How what is still to be read changes by one step of each loop of the lexer. */
module LexSteps {
  import opened Chars
  import opened Lexing
  import opened Tokens
  import opened Wrappers

  lemma TriviaStep(t: string)
    ensures TriviaSpent(t) == match HeadPiece(t) {
      case Failure(_) => None
      case Success(None) => Some(((), 0))
      case Success(Some(p)) => Moved(TriviaSpent(t[|PieceText(p)|..]), |PieceText(p)|)
    }
  {
    hide HeadPiece;
  }

  function Spent(n: Option<nat>, k: nat): Option<((), nat)> { if n.None? then None else Some(((), k + n.value)) }

  /** A block comment whose body begins at `body` has been read up to `pos`. */
  predicate BlockSoFar(chars: string, body: nat, pos: nat) {
    && body <= pos <= |chars| && BlockEnd(chars[body..]).Some? == BlockEnd(chars[pos..]).Some?
    && (BlockEnd(chars[pos..]).Some? ==> BlockEnd(chars[body..]).value == pos - body + BlockEnd(chars[pos..]).value)
  }

  lemma BlockBegins(chars: string, body: nat)
    requires body <= |chars|
    ensures BlockSoFar(chars, body, body)
  {
    hide BlockEnd;
  }

  lemma BlockGoesOn(chars: string, body: nat, pos: nat)
    requires BlockSoFar(chars, body, pos)
    ensures pos == |chars| ==> BlockEnd(chars[body..]) == None
    ensures CharAt(chars, pos, '*') && CharAt(chars, pos + 1, '/') ==> BlockEnd(chars[body..]) == Some(pos + 2 - body)
    ensures pos < |chars| && !(chars[pos] == '*' && CharAt(chars, pos + 1, '/')) ==> BlockSoFar(chars, body, pos + 1)
  {
    var t := chars[pos..];
    if |t| > 1 {
      assert t[0] == chars[pos] && t[1] == chars[pos + 1] && t[1..] == chars[pos + 1..];
    } else if |t| == 1 {
      assert BlockEnd(chars[pos + 1..]) == None;
    }
  }

  function TriviaSpent(t: string): Option<((), nat)> { if Trivia(t).None? then None else Some(((), Width(Trivia(t).value))) }

  function Moved<T>(found: Option<(T, nat)>, k: nat): Option<(T, nat)> {
    if found.None? then None else Some((found.value.0, k + found.value.1))
  }

  // ----- what the methods of the lexer are to read -----

  function UnicodeRead(t: string): Option<(char, nat)> {
    if UnicodeEscape(t).None? then None else Some((UnicodeEscape(t).value, 4))
  }

  predicate AllHex(s: string) { forall i | 0 <= i < |s| :: IsHexDigit(s[i]) }

  /** `u32::from_str_radix` with radix 16. */
  function HexNumber(s: string): nat
    requires AllHex(s)
  {
    if s == "" then 0 else 16 * HexNumber(s[..|s| - 1]) + HexValue(s[|s| - 1])
  }

  lemma NotHex(t: string, i: nat)
    requires i < 4 && (i < |t| ==> !IsHexDigit(t[i]))
    ensures UnicodeEscape(t) == None
  {}

  lemma FourDigits(t: string)
    requires |t| >= 4 && AllHex(t[..4])
    ensures HexNumber(t[..4]) < 0x1_0000
    ensures UnicodeEscape(t) == if 0xd800 <= HexNumber(t[..4]) < 0xe000 then None else Some(HexNumber(t[..4]) as char)
  {
    var s := t[..4];
    forall i | 0 <= i < 4 ensures IsHexDigit(t[i]) && HexValue(t[i]) < 16 {
      assert s[i] == t[i];
    }
    hide HexValue;
    assert s[..3][..2] == s[..2] && s[..2][..1] == s[..1] && s[..1][..0] == "";
    assert HexNumber(s[..1]) == HexValue(s[0]);
    assert HexNumber(s[..2]) == 16 * HexNumber(s[..1]) + HexValue(s[1]);
    assert HexNumber(s[..3]) == 16 * HexNumber(s[..2]) + HexValue(s[2]);
  }

  lemma ShiftedNothing<T>(r: Option<(seq<T>, nat)>)
    ensures Shifted([], r, 0) == r
  {
    if r.Some? {
      assert [] + r.value.0 == r.value.0;
    }
  }

  lemma ShiftedTwice<T>(a: seq<T>, b: seq<T>, r: Option<(seq<T>, nat)>, m: nat, n: nat)
    ensures Shifted(a, Shifted(b, r, n), m) == Shifted(a + b, r, m + n)
  {
    if r.Some? {
      assert a + (b + r.value.0) == a + b + r.value.0;
    }
  }

  lemma StringStep(t: string)
    ensures t == "" ==> StringBody(t) == None
    ensures StartsWith(t, '"') ==> StringBody(t) == Some(("", 1))
    ensures StartsWith(t, '\\') && StringEscape(t[1..]).None? ==> StringBody(t) == None
    ensures StartsWith(t, '\\') && StringEscape(t[1..]).Some? ==>
      (var (c, n) := StringEscape(t[1..]).value;
      StringBody(t) == Shifted([c], StringBody(t[1 + n..]), 1 + n))
    ensures t != "" && t[0] != '"' && t[0] != '\\' ==> StringBody(t) == Shifted([t[0]], StringBody(t[1..]), 1)
  {
    hide StringEscape;
  }

  lemma ShiftedOn<T>(a: seq<T>, r: Option<(seq<T>, nat)>, m: nat, n: nat)
    ensures Shifted(a, Shifted([], r, n), m) == Shifted(a, r, m + n)
  {
    ShiftedTwice(a, [], r, m, n);
    assert a + [] == a;
  }

  lemma ShiftedPair<T>(a: seq<T>, x: T, y: T, r: Option<(seq<T>, nat)>, m: nat, n: nat)
    ensures Shifted(a, Shifted([x, y], r, n), m) == Shifted(a + [x] + [y], r, m + n)
  {
    ShiftedTwice(a, [x, y], r, m, n);
    assert a + [x] + [y] == a + [x, y];
  }

  function StringRead(t: string): Option<(TokenKind, nat)>
    requires t != ""
  {
    var body := StringBody(t[1..]);
    if body.None? then None else Some((Str(body.value.0), 1 + body.value.1))
  }

  function EscapeRead(t: string): (r: Option<(char, nat)>)
    ensures r.Some? ==> r.value.1 == 2
  {
    if HtmlEscape(t).None? then None else Some((HtmlEscape(t).value, 2))
  }

  function InterpolationRead(t: string): Option<(seq<TokenKind>, nat)> {
    var e := HtmlExpr(t, 0);
    if e.None? || e.value.0 == [] then None else e
  }

  /** An html literal whose body begins at `body` has been read up to `pos`, into `parts` and `text`. */
  predicate HtmlSoFar(chars: string, body: nat, pos: nat, parts: seq<HtmlPart>, text: string) {
    && body <= pos <= |chars|
    && HtmlBody(chars[body..], "") == Shifted(parts, HtmlBody(chars[pos..], text), pos - body)
  }

  lemma HtmlBegins(chars: string, body: nat)
    requires body <= |chars|
    ensures HtmlSoFar(chars, body, body, [], "")
  {
    hide HtmlBody;
    ShiftedNothing(HtmlBody(chars[body..], ""));
  }

  lemma HtmlPlain(chars: string, body: nat, pos: nat, parts: seq<HtmlPart>, text: string)
    requires HtmlSoFar(chars, body, pos, parts, text) && pos < |chars|
    requires chars[pos] !in "`\\" && !(chars[pos] == '$' && CharAt(chars, pos + 1, '{'))
    ensures HtmlSoFar(chars, body, pos + 1, parts, text + [chars[pos]])
  {
    hide HtmlExpr;
    assert chars[pos..][1..] == chars[pos + 1..];
    ShiftedOn(parts, HtmlBody(chars[pos + 1..], text + [chars[pos]]), pos - body, 1);
  }

  lemma HtmlEscaped(chars: string, body: nat, pos: nat, parts: seq<HtmlPart>, text: string)
    requires HtmlSoFar(chars, body, pos, parts, text) && CharAt(chars, pos, '\\')
    ensures var e := EscapeRead(chars[pos..]);
      if e.None? then HtmlBody(chars[body..], "") == None
      else pos + 2 <= |chars| && HtmlSoFar(chars, body, pos + 2, parts, text + [e.value.0])
  {
    hide HtmlExpr;
    var e := EscapeRead(chars[pos..]);
    if e.Some? {
      assert chars[pos..][2..] == chars[pos + 2..];
      ShiftedOn(parts, HtmlBody(chars[pos + 2..], text + [e.value.0]), pos - body, 2);
    }
  }

  lemma HtmlInterpolated(chars: string, body: nat, pos: nat, parts: seq<HtmlPart>, text: string)
    requires HtmlSoFar(chars, body, pos, parts, text) && CharAt(chars, pos, '$') && CharAt(chars, pos + 1, '{')
    ensures var e := InterpolationRead(chars[pos + 2..]);
      if e.None? then HtmlBody(chars[body..], "") == None
      else
        && pos + 2 + e.value.1 <= |chars|
        && HtmlSoFar(chars, body, pos + 2 + e.value.1, parts + [Text(text)] + [Expr(e.value.0)], "")
  {
    hide HtmlExpr;
    assert chars[pos..][2..] == chars[pos + 2..];
    var e := InterpolationRead(chars[pos + 2..]);
    if e.Some? {
      var (tokens, n) := e.value;
      assert chars[pos..][2 + n..] == chars[pos + 2 + n..];
      ShiftedPair(parts, Text(text), Expr(tokens), HtmlBody(chars[pos + 2 + n..], ""), pos - body, 2 + n);
    }
  }

  lemma HtmlEnds(chars: string, body: nat, pos: nat, parts: seq<HtmlPart>, text: string)
    requires HtmlSoFar(chars, body, pos, parts, text)
    ensures pos == |chars| ==> HtmlBody(chars[body..], "") == None
    ensures CharAt(chars, pos, '`') ==> HtmlBody(chars[body..], "") == Some((parts + [Text(text)], pos + 1 - body))
  {
    hide HtmlExpr;
    assert chars[pos..] == "" || chars[pos..][0] == chars[pos];
  }

  lemma ExprStep(t: string, depth: nat)
    ensures Lexing.NextToken(t).None? ==> HtmlExpr(t, depth) == None
    ensures Lexing.NextToken(t).Some? ==>
      (var (kind, n) := Lexing.NextToken(t).value;
      HtmlExpr(t, depth) ==
        if kind == Eof then None
        else if kind == Sym(RBrace) && depth == 0 then Some(([], n))
        else Shifted([kind], HtmlExpr(t[n..], DepthAfter(kind, depth)), n))
  {
    hide Lexing.NextToken;
  }

  function HtmlRead(t: string): Option<(TokenKind, nat)>
    requires t != ""
  {
    var body := HtmlBody(t[1..], "");
    if body.None? then None else Some((HtmlLit(body.value.0), 1 + body.value.1))
  }

  function SymbolRead(t: string): Option<(TokenKind, nat)>
    requires t != ""
  {
    var s := LexSymbol(t);
    if s.None? then None else Some((Sym(s.value), |SymbolText(s.value)|))
  }

  lemma HtmlIsNoKeyword(s: string)
    ensures WordKind(s) == Ident("html") <==> s == "html"
  {}

  lemma NumberIsRead(chars: string, start: nat)
    requires start < |chars| && IsDigit(chars[start])
    ensures var point := start + DigitsLen(chars[start..]);
      point <= |chars| && AllDigits(chars[start..point]) &&
      LexNumber(chars[start..]) ==
        if HasFraction(chars, point) then
          var end := point + 1 + DigitsLen(chars[point + 1..]);
          Some((Float(chars[start..end]), end - start))
        else
          var value := ParseInt(chars[start..point]);
          if value.None? then None else Some((value.value, point - start))
  {
    hide DigitsLen, ParseInt;
    var t := chars[start..];
    var n := DigitsLen(t);
    assert t[..n] == chars[start..start + n];
    assert HasFraction(t, n) == HasFraction(chars, start + n);
    if HasFraction(t, n) {
      assert t[n + 1..] == chars[start + n + 1..];
      var m := n + 1 + DigitsLen(t[n + 1..]);
      assert t[..m] == chars[start..start + m];
    }
  }
}
