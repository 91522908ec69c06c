/** Reading a token looks at the token and at most two characters more, so that text which is written out again
    is read again the same way; and trivia is read back from its pieces. */
module Locality {
  import opened Chars
  import opened Lexing
  import opened Tokens
  import opened Wrappers

  // ----- trivia -----

  predicate IsPiece(p: Piece) {
    match p
    case White(c) => IsWhitespace(c)
    case Line(text) => |text| >= 2 && text[0] == text[1] == '/' && '\n' !in text
    case Block(text) => |text| >= 4 && text[0] == '/' && text[1] == '*' && BlockEnd(text[2..]) == Some(|text| - 2)
  }

  /** Pieces as trivia is made of: a line comment reaches to a newline, or to the end if `last` says the text ends. */
  predicate IsGap(ps: seq<Piece>, last: bool) {
    ps != [] ==>
      && IsPiece(ps[0]) && IsGap(ps[1..], last)
      && (ps[0].Line? ==> if |ps| > 1 then ps[1] == White('\n') else last)
  }

  predicate NoTrivia(t: string) { HeadPiece(t) == Success(None) }

  lemma {:induction false} BlockEndIsLocal(t: string, rest: string)
    requires BlockEnd(t).Some?
    ensures BlockEnd(t + rest) == BlockEnd(t)
  {
    if !(t[0] == '*' && t[1] == '/') {
      BlockEndIsLocal(t[1..], rest);
      assert (t + rest)[1..] == t[1..] + rest;
    }
  }

  lemma {:induction false} LineEnds(t: string, n: nat)
    requires n <= |t| && '\n' !in t[..n] && (n < |t| ==> t[n] == '\n')
    ensures LineLen(t) == n
  {
    if n > 0 {
      assert t[..n][0] != '\n';
      assert t[1..][..n - 1] == t[..n][1..];
      LineEnds(t[1..], n - 1);
    }
  }

  lemma PieceIsRead(p: Piece, rest: string)
    requires IsPiece(p)
    requires p.Line? && rest != "" ==> rest[0] == '\n'
    ensures HeadPiece(PieceText(p) + rest) == Success(Some(p))
  {
    var t := PieceText(p) + rest;
    if p.Line? {
      assert t[..|p.text|] == p.text;
      LineEnds(t, |p.text|);
    } else if p.Block? {
      BlockEndIsLocal(p.text[2..], rest);
      assert t[2..] == p.text[2..] + rest;
      assert t[..|p.text|] == p.text;
    }
  }

  lemma TriviaAfterPiece(p: Piece, after: string)
    requires HeadPiece(PieceText(p) + after) == Success(Some(p)) && Trivia(after).Some?
    ensures Trivia(PieceText(p) + after) == Some([p] + Trivia(after).value)
  {
    hide HeadPiece;
    assert (PieceText(p) + after)[|PieceText(p)|..] == after;
  }

  /** Pieces written out before text that is no trivia are read as the same pieces. */
  lemma {:induction false} GapIsRead(ps: seq<Piece>, rest: string)
    requires IsGap(ps, rest == "") && NoTrivia(rest)
    ensures Trivia(Flatten(ps) + rest) == Some(ps)
    ensures Width(ps) == |Flatten(ps)|
  {
    hide HeadPiece, BlockEnd, LineLen, IsPiece, IsWhitespace;
    if ps == [] {
      hide Width, IsGap;
      assert Flatten(ps) + rest == rest;
    } else {
      var after := Flatten(ps[1..]) + rest;
      GapIsRead(ps[1..], rest);
      assert Flatten(ps) + rest == PieceText(ps[0]) + after;
      PieceIsRead(ps[0], after);
      TriviaAfterPiece(ps[0], after);
      assert ps == [ps[0]] + ps[1..];
    }
  }

  lemma HeadIsPiece(t: string)
    requires HeadPiece(t).Success? && HeadPiece(t).value.Some?
    ensures IsPiece(HeadPiece(t).value.value)
  {
    var p := HeadPiece(t).value.value;
    if p.Block? {
      var n := BlockEnd(t[2..]).value;
      BlockEndIsPrefix(t[2..]);
      assert p.text[2..] == t[2..][..n];
    } else if p.Line? {
      assert t[0] != '\n';
      LineLenOfSlashes(t);
    }
  }

  lemma LineLenOfSlashes(t: string)
    requires |t| >= 2 && t[0] == t[1] == '/'
    ensures LineLen(t) >= 2
  {
    assert LineLen(t) == 1 + LineLen(t[1..]);
  }

  lemma {:induction false} BlockEndIsPrefix(t: string)
    requires BlockEnd(t).Some?
    ensures BlockEnd(t[..BlockEnd(t).value]) == BlockEnd(t)
  {
    if !(t[0] == '*' && t[1] == '/') {
      BlockEndIsPrefix(t[1..]);
      var n := BlockEnd(t).value;
      assert t[..n][1..] == t[1..][..n - 1];
    }
  }

  /** The trivia at the head of a text, written out, is that text up to the next token. */
  lemma {:induction false} TriviaIsText(t: string)
    requires Trivia(t).Some?
    ensures var ps := Trivia(t).value; Flatten(ps) == t[..Width(ps)] && NoTrivia(t[Width(ps)..])
    decreases |t|
  {
    hide BlockEnd, LineLen, IsWhitespace, HeadPiece;
    var head := HeadPiece(t).value;
    if head.Some? {
      var p := head.value;
      var rest := t[|PieceText(p)|..];
      TriviaIsText(rest);
      var qs := Trivia(rest).value;
      assert t == PieceText(p) + rest;
      TriviaAfterPiece(p, rest);
      hide Trivia;
      assert ([p] + qs)[1..] == qs;
      assert t[..|PieceText(p)| + Width(qs)] == PieceText(p) + rest[..Width(qs)];
      assert rest[Width(qs)..] == t[|PieceText(p)| + Width(qs)..];
    } else {
      assert t[0..] == t;
    }
  }

  lemma {:induction false} TriviaIsGap(t: string)
    requires Trivia(t).Some?
    ensures IsGap(Trivia(t).value, Width(Trivia(t).value) == |t|)
    decreases |t|
  {
    hide BlockEnd, LineLen, IsPiece, IsWhitespace, HeadPiece;
    var head := HeadPiece(t).value;
    if head.Some? {
      var p := head.value;
      var rest := t[|PieceText(p)|..];
      TriviaIsGap(rest);
      HeadIsPiece(t);
      if p.Line? {
        LineIsFollowed(t);
      }
      var qs := Trivia(rest).value;
      assert ([p] + qs)[1..] == qs;
    }
  }

  lemma LineIsFollowed(t: string)
    requires Trivia(t).Some? && HeadPiece(t).value.Some? && HeadPiece(t).value.value.Line?
    ensures var ps := Trivia(t).value; if |ps| > 1 then ps[1] == White('\n') else Width(ps) == |t|
  {
    hide BlockEnd;
    var n := LineLen(t);
    if n < |t| {
      NewlineComesFirst(t[n..]);
    }
  }

  lemma NewlineComesFirst(t: string)
    requires StartsWith(t, '\n') && Trivia(t).Some?
    ensures Trivia(t).value != [] && Trivia(t).value[0] == White('\n')
  {}

  lemma TriviaIsLocal(t: string, u: string)
    requires Trivia(t).Some?
    requires var w := Width(Trivia(t).value);
      w <= |u| && t[..w] == u[..w] && NoTrivia(u[w..]) && (w < |t| || w == |u|)
    ensures Trivia(u) == Trivia(t)
  {
    hide HeadPiece, BlockEnd, LineLen, IsPiece, IsWhitespace, Trivia, Width, Flatten, IsGap;
    var ps := Trivia(t).value;
    var w := Width(ps);
    TriviaIsGap(t);
    TriviaIsText(t);
    if w < |t| && w == |u| {
      GapMayEnd(ps);
    }
    GapIsRead(ps, u[w..]);
    assert Flatten(ps) + u[w..] == u;
  }

  lemma {:induction false} GapMayEnd(ps: seq<Piece>)
    requires IsGap(ps, false)
    ensures IsGap(ps, true)
  {
    if ps != [] {
      GapMayEnd(ps[1..]);
    }
  }

  // ----- tokens -----

  predicate Agree(t: string, u: string, m: nat) { m <= |t| && m <= |u| && t[..m] == u[..m] }

  lemma AgreeFrom(t: string, u: string, m: nat, k: nat)
    requires Agree(t, u, m) && k <= m
    ensures Agree(t[k..], u[k..], m - k)
    ensures forall n | 0 <= n <= k :: t[..n] == u[..n]
  {
    assert t[k..][..m - k] == t[..m][k..] && u[k..][..m - k] == u[..m][k..];
    forall n | 0 <= n <= k ensures t[..n] == u[..n] {
      assert t[..n] == t[..m][..n] && u[..n] == u[..m][..n];
    }
  }

  lemma AgreeAt(t: string, u: string, m: nat, i: nat)
    requires Agree(t, u, m) && i < m
    ensures t[i] == u[i]
  {
    assert t[..m][i] == u[..m][i];
  }

  lemma {:induction false} DigitsEnd(t: string, n: nat)
    requires n <= |t| && AllDigits(t[..n]) && (n < |t| ==> !IsDigit(t[n]))
    ensures DigitsLen(t) == n
  {
    if n > 0 {
      assert IsDigit(t[..n][0]);
      assert t[1..][..n - 1] == t[..n][1..];
      DigitsEnd(t[1..], n - 1);
    }
  }

  lemma {:induction false} WordEnds(t: string, n: nat)
    requires n <= |t| && (forall i | 0 <= i < n :: IsWordChar(t[i])) && (n < |t| ==> !IsWordChar(t[n]))
    ensures WordLen(t) == n
  {
    if n > 0 {
      WordEnds(t[1..], n - 1);
    }
  }

  lemma DigitsAreLocal(t: string, u: string, m: nat)
    requires Agree(t, u, m) && DigitsLen(t) < m
    ensures DigitsLen(u) == DigitsLen(t)
  {
    var n := DigitsLen(t);
    AgreeFrom(t, u, m, n);
    AgreeAt(t, u, m, n);
    DigitsEnd(u, n);
  }

  lemma NumberIsLocal(t: string, u: string, m: nat)
    requires t != "" && u != "" && IsDigit(t[0]) && IsDigit(u[0]) && LexNumber(t).Some?
    requires Agree(t, u, m) && LexNumber(t).value.1 + 2 <= m
    ensures LexNumber(u) == LexNumber(t)
  {
    var n := DigitsLen(t);
    DigitsAreLocal(t, u, m);
    AgreeFrom(t, u, m, n + 1);
    AgreeAt(t, u, m, n);
    AgreeAt(t, u, m, n + 1);
    if t[n] == '.' && IsDigit(t[n + 1]) {
      DigitsAreLocal(t[n + 1..], u[n + 1..], m - n - 1);
      AgreeFrom(t, u, m, LexNumber(t).value.1);
    }
  }

  lemma WordIsLocal(t: string, u: string, m: nat)
    requires Agree(t, u, m) && WordLen(t) < m
    ensures WordLen(u) == WordLen(t) && t[..WordLen(t)] == u[..WordLen(t)]
  {
    var n := WordLen(t);
    AgreeFrom(t, u, m, n);
    forall i | 0 <= i <= n ensures t[i] == u[i] {
      AgreeAt(t, u, m, i);
    }
    WordEnds(u, n);
  }

  lemma EscapeIsLocal(t: string, u: string, m: nat)
    requires StringEscape(t).Some? && Agree(t, u, m) && StringEscape(t).value.1 <= m
    ensures StringEscape(u) == StringEscape(t)
  {
    forall i | 0 <= i < m ensures t[i] == u[i] {
      AgreeAt(t, u, m, i);
    }
    hide HexValue;
    if t[0] == 'u' {
      AgreeFrom(t, u, m, 1);
      UnicodeIsLocal(t[1..], u[1..], m - 1);
    }
  }

  lemma UnicodeIsLocal(t: string, u: string, m: nat)
    requires UnicodeEscape(t).Some? && Agree(t, u, m) && 4 <= m
    ensures UnicodeEscape(u) == UnicodeEscape(t)
  {
    AgreeAt(t, u, m, 0);
    AgreeAt(t, u, m, 1);
    AgreeAt(t, u, m, 2);
    AgreeAt(t, u, m, 3);
  }

  lemma {:induction false} StringIsLocal(t: string, u: string, m: nat)
    requires StringBody(t).Some? && Agree(t, u, m) && StringBody(t).value.1 <= m
    ensures StringBody(u) == StringBody(t)
    decreases |t|
  {
    hide StringEscape;
    AgreeAt(t, u, m, 0);
    if t[0] == '"' {
    } else if t[0] == '\\' {
      AgreeFrom(t, u, m, 1);
      EscapeIsLocal(t[1..], u[1..], m - 1);
      var k := 1 + StringEscape(t[1..]).value.1;
      AgreeFrom(t, u, m, k);
      StringIsLocal(t[k..], u[k..], m - k);
    } else {
      AgreeFrom(t, u, m, 1);
      StringIsLocal(t[1..], u[1..], m - 1);
    }
  }

  lemma SymbolIsLocal(t: string, u: string, m: nat)
    requires t != "" && u != "" && LexSymbol(t).Some? && Agree(t, u, m) && 0 < m
    requires t[0] == '}' || |SymbolText(LexSymbol(t).value)| < m
    ensures LexSymbol(u) == LexSymbol(t)
  {
    AgreeAt(t, u, m, 0);
    if m > 1 {
      AgreeAt(t, u, m, 1);
    }
  }

  /** How much of the text an answer depends on. */
  function Reach(kind: TokenKind, n: nat): nat { if kind.HtmlLit? || kind == Sym(RBrace) then n else n + 2 }

  lemma {:induction false} TokenIsLocal(t: string, u: string, m: nat)
    requires t != "" && LexToken(t).Some?
    requires Agree(t, u, m) && Reach(LexToken(t).value.0, LexToken(t).value.1) <= m
    ensures u != "" && LexToken(u) == LexToken(t)
    decreases |t|, 1
  {
    hide LexNumber, StringBody, HtmlBody, WordKind, LexSymbol, IsWordStart;
    var (kind, n) := LexToken(t).value;
    AgreeAt(t, u, m, 0);
    if IsDigit(t[0]) {
      NumberKind(t);
      NumberIsLocal(t, u, m);
    } else if IsWordStart(t[0]) {
      WordTokenIsLocal(t, u, m);
    } else if t[0] == '"' {
      AgreeFrom(t, u, m, 1);
      StringIsLocal(t[1..], u[1..], m - 1);
    } else {
      if kind == Sym(RBrace) {
        BraceIsSymbol(t);
      }
      SymbolIsLocal(t, u, m);
    }
  }

  lemma NumberKind(t: string)
    requires t != "" && IsDigit(t[0]) && LexNumber(t).Some?
    ensures LexNumber(t).value.0.Int? || LexNumber(t).value.0.Float?
  {}

  lemma BraceIsSymbol(t: string)
    requires t != "" && LexSymbol(t) == Some(RBrace)
    ensures t[0] == '}'
  {}

  lemma {:induction false} WordTokenIsLocal(t: string, u: string, m: nat)
    requires t != "" && !IsDigit(t[0]) && IsWordStart(t[0]) && LexToken(t).Some?
    requires Agree(t, u, m) && Reach(LexToken(t).value.0, LexToken(t).value.1) <= m
    ensures u != "" && LexToken(u) == LexToken(t)
    decreases |t|, 0
  {
    hide LexNumber, StringBody, HtmlBody, KeywordFromStr, LexSymbol;
    var n := WordLen(t);
    if t[..n] == "html" && CharAt(t, n, '`') {
      AgreeAt(t, u, m, 0);
      AgreeAt(t, u, m, n);
      WordIsLocal(t, u, m);
      AgreeFrom(t, u, m, n + 1);
      BodyIsLocal(t[n + 1..], u[n + 1..], m - n - 1, "");
    } else {
      AgreeAt(t, u, m, 0);
      AgreeAt(t, u, m, n);
      WordIsLocal(t, u, m);
    }
  }

  lemma {:induction false} NextIsLocal(t: string, u: string, m: nat)
    requires NextToken(t).Some? && !NextToken(t).value.0.Eof?
    requires Agree(t, u, m) && Reach(NextToken(t).value.0, NextToken(t).value.1) <= m
    ensures NextToken(u) == NextToken(t)
    decreases |t|, 2
  {
    hide LexToken, Trivia, Width;
    var n := Width(Trivia(t).value);
    var (kind, l) := LexToken(t[n..]).value;
    TriviaIsText(t);
    AgreeFrom(t, u, m, n);
    HeadOfToken(t[n..], u[n..], m - n);
    TriviaIsLocal(t, u);
    TokenIsLocal(t[n..], u[n..], m - n);
  }

  lemma HeadOfToken(t: string, u: string, m: nat)
    requires t != "" && NoTrivia(t) && LexToken(t).Some?
    requires Agree(t, u, m) && Reach(LexToken(t).value.0, LexToken(t).value.1) <= m
    ensures NoTrivia(u)
  {
    hide LexNumber, StringBody, HtmlBody, KeywordFromStr, IsWhitespace, BlockEnd, LineLen;
    AgreeAt(t, u, m, 0);
    if t[0] == '/' {
      assert LexSymbol(t) == Some(Slash);
      AgreeAt(t, u, m, 1);
    }
  }

  lemma {:induction false} BodyIsLocal(t: string, u: string, m: nat, text: string)
    requires HtmlBody(t, text).Some? && Agree(t, u, m) && HtmlBody(t, text).value.1 <= m
    ensures HtmlBody(u, text) == HtmlBody(t, text)
    decreases |t|, 4
  {
    hide HtmlExpr;
    AgreeAt(t, u, m, 0);
    if t[0] == '`' {
    } else if t[0] == '\\' {
      AgreeAt(t, u, m, 1);
      AgreeFrom(t, u, m, 2);
      BodyIsLocal(t[2..], u[2..], m - 2, text + [HtmlEscape(t).value]);
    } else if t[0] == '$' && CharAt(t, 1, '{') {
      AgreeAt(t, u, m, 1);
      AgreeFrom(t, u, m, 2);
      ExprIsLocal(t[2..], u[2..], m - 2, 0);
      var k := 2 + HtmlExpr(t[2..], 0).value.1;
      AgreeFrom(t, u, m, k);
      BodyIsLocal(t[k..], u[k..], m - k, "");
    } else {
      AgreeFrom(t, u, m, 1);
      if t[0] == '$' {
        AgreeAt(t, u, m, 1);
      }
      BodyIsLocal(t[1..], u[1..], m - 1, text + [t[0]]);
    }
  }

  lemma {:induction false} ExprIsLocal(t: string, u: string, m: nat, depth: nat)
    requires HtmlExpr(t, depth).Some? && Agree(t, u, m) && HtmlExpr(t, depth).value.1 < m
    ensures HtmlExpr(u, depth) == HtmlExpr(t, depth)
    decreases |t|, 3
  {
    hide NextToken;
    var (kind, n) := NextToken(t).value;
    NextIsLocal(t, u, m);
    if !(kind == Sym(RBrace) && depth == 0) {
      AgreeFrom(t, u, m, n);
      ExprIsLocal(t[n..], u[n..], m - n, DepthAfter(kind, depth));
    }
  }
}
