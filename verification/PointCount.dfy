/** Counting the points of a source: those in strings, comments and html literals are no tokens and are passed over. */
module PointCount {
  import opened Chars
  import opened Lexing
  import opened Locality
  import opened Rendering
  import opened Tokens
  import opened Wrappers

  /** Length of the part of an html literal that begins with its opening backquote. */
  function HtmlLen(t: string): (n: nat)
    ensures n <= |t|
  {
    if StartsWith(t, '`') && HtmlBody(t[1..], "").Some? then 1 + HtmlBody(t[1..], "").value.1 else 0
  }

  /** Length of the word or number at the head of `t`, with the html literal that its end begins. */
  function RunLen(t: string): (n: nat)
    requires t != "" && IsWordChar(t[0])
    ensures 0 < n <= |t|
  {
    WordLen(t) + HtmlLen(t[WordLen(t)..])
  }

  /** Length of what is passed over at the head of `t`: a run of word characters, a piece of trivia or a string. */
  function SkipLen(t: string): (n: nat)
    requires t != ""
    ensures n <= |t|
  {
    if IsWordChar(t[0]) then RunLen(t)
    else if HeadPiece(t).Success? && HeadPiece(t).value.Some? then |PieceText(HeadPiece(t).value.value)|
    else if t[0] == '"' && StringBody(t[1..]).Some? then 1 + StringBody(t[1..]).value.1
    else 0
  }

  function PointAt(c: char): nat { if c == '.' then 1 else 0 }

  function Points(t: string): nat
    decreases |t|
  {
    if t == "" then 0
    else if SkipLen(t) > 0 then Points(t[SkipLen(t)..])
    else PointAt(t[0]) + Points(t[1..])
  }

  /** The points a token is written with. */
  function PointsOf(k: TokenKind): nat {
    match k
    case Float(_) => 1
    case Sym(s) => if s == Dot then 1 else if s == DotDot then 2 else 0
    case _ => 0
  }

  function Total(items: seq<Item>): nat { if items == [] then 0 else PointsOf(items[0].kind) + Total(items[1..]) }

  // ----- token by token -----

  lemma PointsAfterSkip(t: string)
    requires t != "" && SkipLen(t) > 0
    ensures Points(t) == Points(t[SkipLen(t)..])
  {}

  lemma WordFrom(t: string, n: nat)
    requires n < WordLen(t)
    ensures WordLen(t[n..]) == WordLen(t) - n && IsWordChar(t[0]) && IsWordChar(t[n..][0])
  {
    var u := t[n..];
    var w := WordLen(t);
    assert forall i | 0 <= i < w - n :: u[i] == t[n + i];
    WordEnds(u, w - n);
  }

  lemma RunFrom(t: string, n: nat)
    requires n < WordLen(t)
    ensures IsWordChar(t[0]) && IsWordChar(t[n..][0]) && RunLen(t) == n + RunLen(t[n..])
  {
    WordFrom(t, n);
    var u := t[n..];
    var w := WordLen(t);
    hide HtmlLen, WordLen;
    assert u[w - n..] == t[w..];
  }

  /** A run may be entered anywhere, but not left before a backquote. */
  lemma PointsInRun(t: string, n: nat)
    requires n <= WordLen(t) && !StartsWith(t[n..], '`')
    ensures Points(t) == Points(t[n..])
  {
    var u := t[n..];
    if n == 0 {
      assert u == t;
    } else {
      RunEnds(t, n);
      hide RunLen, Points, WordLen;
      PointsAfterSkip(t);
      if n < WordLen(t) {
        RunFrom(t, n);
        PointsAfterSkip(u);
        assert u[RunLen(u)..] == t[RunLen(t)..];
      }
    }
  }

  lemma RunEnds(t: string, n: nat)
    requires 0 < n <= WordLen(t) && !StartsWith(t[n..], '`')
    ensures IsWordChar(t[0]) && (n == WordLen(t) ==> RunLen(t) == n)
  {
    hide HtmlBody;
  }

  lemma {:induction false} PointsInTrivia(t: string)
    requires Trivia(t).Some?
    ensures Points(t) == Points(t[Width(Trivia(t).value)..])
    decreases |t|
  {
    hide BlockEnd, LineLen, WordLen, HtmlBody;
    var ps := Trivia(t).value;
    if ps == [] {
      assert t[0..] == t;
    } else {
      var p := HeadPiece(t).value.value;
      var n := |PieceText(p)|;
      assert ps[1..] == Trivia(t[n..]).value;
      PieceIsNoWord(t);
      PointsInTrivia(t[n..]);
      assert t[n..][Width(ps[1..])..] == t[Width(ps)..];
    }
  }

  lemma PieceIsNoWord(t: string)
    requires HeadPiece(t).Success? && HeadPiece(t).value.Some?
    ensures !IsWordChar(t[0])
  {}

  /** A character that begins nothing longer. */
  predicate IsLone(t: string) { t != "" && SkipLen(t) == 0 }

  lemma PointsOfLone(t: string)
    requires IsLone(t)
    ensures Points(t) == PointAt(t[0]) + Points(t[1..])
  {}

  lemma SymbolIsLone(t: string, s: Symbol)
    requires SymbolText(s) <= t && NoTrivia(t)
    ensures IsLone(t)
  {
    hide SymbolText, HtmlBody, StringBody;
    SymbolHead(s);
    assert t[0] == SymbolText(s)[0];
  }

  lemma SecondIsLone(t: string, s: Symbol)
    requires SymbolText(s) <= t && SymbolWidth(s) == 2
    ensures IsLone(t[1..]) && PointAt(t[1]) == (if s == DotDot then 1 else 0)
  {
    hide HtmlBody, StringBody, WordLen, BlockEnd, LineLen;
    assert t[1] == SymbolText(s)[1];
  }

  lemma PointsOfSymbol(t: string, s: Symbol)
    requires SymbolText(s) <= t && NoTrivia(t)
    ensures Points(t) == PointsOf(Sym(s)) + Points(t[|SymbolText(s)|..])
  {
    SymbolIsLone(t, s);
    PointsOfLone(t);
    SymbolsAreShort(s);
    SymbolPoint(s);
    if SymbolWidth(s) == 2 {
      SecondIsLone(t, s);
      hide SymbolText, Points, IsLone;
      PointsOfLone(t[1..]);
      assert t[1..][1..] == t[2..];
    }
  }

  lemma SymbolPoint(s: Symbol)
    ensures SymbolText(s) != "" && PointAt(SymbolText(s)[0]) == if s == Dot || s == DotDot then 1 else 0
  {}

  lemma PointsOfFloat(t: string, n: nat, m: nat)
    requires n <= WordLen(t) && CharAt(t, n, '.') && n + 1 + m <= |t| && m <= WordLen(t[n + 1..]) && !StartsWith(t[n + 1 + m..], '`')
    ensures Points(t) == 1 + Points(t[n + 1 + m..])
  {
    hide WordLen, Points, SkipLen;
    PointsInRun(t, n);
    PointIsLone(t[n..]);
    PointsOfLone(t[n..]);
    assert t[n..][1..] == t[n + 1..];
    PointsInRun(t[n + 1..], m);
    assert t[n + 1..][m..] == t[n + 1 + m..];
  }

  lemma PointIsLone(t: string)
    requires StartsWith(t, '.')
    ensures IsLone(t)
  {}

  lemma DigitsAreRun(t: string)
    ensures DigitsLen(t) <= WordLen(t)
  {
    var n := DigitsLen(t);
    forall i | 0 <= i < n ensures IsWordChar(t[i]) {
      assert t[i] == t[..n][i];
    }
  }

  lemma PointsOfNumber(t: string)
    requires t != "" && IsDigit(t[0]) && LexNumber(t).Some? && !StartsWith(t[LexNumber(t).value.1..], '`')
    ensures Points(t) == PointsOf(LexNumber(t).value.0) + Points(t[LexNumber(t).value.1..])
  {
    hide Points, WordLen, DigitsLen;
    var n := DigitsLen(t);
    DigitsAreRun(t);
    if HasFraction(t, n) {
      DigitsAreRun(t[n + 1..]);
      PointsOfFloat(t, n, DigitsLen(t[n + 1..]));
    } else {
      PointsInRun(t, n);
    }
  }

  lemma PointsOfHtml(t: string)
    requires t != "" && !IsDigit(t[0]) && LexToken(t).Some? && LexToken(t).value.0.HtmlLit?
    ensures Points(t) == Points(t[LexToken(t).value.1..])
  {
    hide HtmlBody, StringBody, KeywordFromStr, LexSymbol, Points, WordLen;
    PointsAfterSkip(t);
    assert t[4..][1..] == t[5..];
  }

  lemma PointsOfString(t: string)
    requires StartsWith(t, '"') && StringBody(t[1..]).Some?
    ensures Points(t) == Points(t[1 + StringBody(t[1..]).value.1..])
  {
    hide HtmlBody, StringBody;
  }

  /** What was read as a token is counted with the points of that token. */
  lemma PointsOfToken(t: string)
    requires t != "" && NoTrivia(t) && LexToken(t).Some? && !StartsWith(t[LexToken(t).value.1..], '`')
    ensures Points(t) == PointsOf(LexToken(t).value.0) + Points(t[LexToken(t).value.1..])
  {
    hide Points, HtmlBody, StringBody, LexNumber, SymbolText, WordLen, NoTrivia;
    if IsDigit(t[0]) {
      NumberKind(t);
      PointsOfNumber(t);
    } else if IsWordStart(t[0]) {
      if LexToken(t).value.0.HtmlLit? {
        PointsOfHtml(t);
      } else {
        PointsInRun(t, WordLen(t));
      }
    } else if t[0] == '"' {
      PointsOfString(t);
    } else {
      SymbolBegins(t);
      PointsOfSymbol(t, LexSymbol(t).value);
    }
  }

  lemma BackquoteIsRefused(t: string)
    requires StartsWith(t, '`')
    ensures LexAll(t).None?
  {
    hide LexNumber, StringBody, HtmlBody, WordLen, BlockEnd, LineLen;
    assert HeadPiece(t) == Success(None);
    assert t[0..] == t;
    assert LexToken(t).None?;
  }

  /** The points of a source are those of its tokens. */
  lemma {:induction false} PointsOfAll(t: string)
    requires LexAll(t).Some?
    ensures Points(t) == Total(LexAll(t).value.items)
    decreases |t|
  {
    hide Points, LexToken, NoTrivia, PointsOf;
    var gap := Trivia(t).value;
    var n := Width(gap);
    PointsInTrivia(t);
    TriviaIsText(t);
    if n == |t| {
      NoPoints();
      assert t[n..] == "";
    } else {
      var s := t[n..];
      var (k, m) := LexToken(s).value;
      assert s[m..] == t[n + m..];
      if StartsWith(s[m..], '`') {
        BackquoteIsRefused(s[m..]);
        assert false;
      }
      PointsOfToken(s);
      PointsOfAll(t[n + m..]);
      var rest := LexAll(t[n + m..]).value;
      assert LexAll(t).value.items == [Item(gap, k, t[n..n + m])] + rest.items;
      assert LexAll(t).value.items[1..] == rest.items;
    }
  }

  lemma NoPoints()
    ensures Points("") == 0
  {}
}
