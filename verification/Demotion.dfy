/** Floats that are printed without their point: the source they look like, and the points the printed text has. */
module Demotion {
  import opened Chars
  import opened Gaps
  import opened Layout
  import opened Lexing
  import opened Locality
  import opened PointCount
  import opened Rendering
  import opened RoundTrip
  import opened Tokens
  import opened Trimming
  import opened Wrappers

  // ----- how floats are printed -----

  /** As a 64-bit float is displayed: with a point, and then so that it is read as the same value; as an
      integer, when it has no fraction; or as `inf`. */
  predicate IsDisplayed(p: string, printFloat: string -> string) {
    || (IsFloat(p) && printFloat(p) == p)
    || (p != "" && AllDigits(p) && p == Decimal(Value(p)))
    || p == "inf"
  }

  predicate DisplaysFloats(x: Lexed, printFloat: string -> string) {
    forall i | 0 <= i < |x.items| :: x.items[i].kind.Float? ==> IsDisplayed(printFloat(x.items[i].kind.text), printFloat)
  }

  /** The token that a token's print looks like: a float without its point is an integer or the name `inf`. */
  function Demoted(k: TokenKind, printFloat: string -> string): TokenKind {
    if !k.Float? || IsFloat(printFloat(k.text)) then k
    else if AllDigits(printFloat(k.text)) then Int(Value(printFloat(k.text)))
    else Ident("inf")
  }

  function DemotedItems(items: seq<Item>, printFloat: string -> string): (r: seq<Item>)
    ensures |r| == |items|
    ensures forall i | 0 <= i < |r| :: r[i] == items[i].(kind := Demoted(items[i].kind, printFloat))
  {
    seq(|items|, i requires 0 <= i < |items| => items[i].(kind := Demoted(items[i].kind, printFloat)))
  }

  function Demote(x: Lexed, printFloat: string -> string): Lexed { Lexed(DemotedItems(x.items, printFloat), x.tail) }

  lemma DemotedIsPrinted(k: TokenKind, text: string, printFloat: string -> string)
    requires Shape(k, text) && (k.Float? ==> IsDisplayed(printFloat(k.text), printFloat))
    ensures var d := Demoted(k, printFloat);
      && Shape(d, text) && Prints(d, printFloat) && Alike(Some(k), Some(d))
      && Render(d, text, printFloat) == Render(k, text, printFloat)
      && PointsOf(d) + (if Prints(k, printFloat) then 0 else 1) == PointsOf(k)
  {
    hide Decimal, KeywordText, SymbolText, Escape, IsHtml, KeywordFromStr;
    InfIsName();
    if k.Float? && AllDigits(printFloat(k.text)) {
      DigitsAreNoFloat(printFloat(k.text));
    }
  }

  lemma InfIsName()
    ensures IsWord("inf") && KeywordFromStr("inf").None? && !IsFloat("inf") && !AllDigits("inf")
  {
    assert !IsDigit("inf"[0]);
  }

  lemma DigitsAreNoFloat(s: string)
    requires AllDigits(s)
    ensures !IsFloat(s)
  {
    assert s[..|s|] == s;
    DigitsEnd(s, |s|);
  }

  lemma DemotedIsWell(x: Lexed, printFloat: string -> string)
    requires WellLexed(x) && DisplaysFloats(x, printFloat)
    ensures WellLexed(Demote(x, printFloat)) && PrintsFloats(Demote(x, printFloat), printFloat)
  {
    hide Shape, Prints, IsDisplayed, Demoted, Alike, Render, PointsOf, AllPieces;
    forall i | 0 <= i < |x.items|
      ensures Shape(Demote(x, printFloat).items[i].kind, x.items[i].text) && Prints(Demote(x, printFloat).items[i].kind, printFloat)
    {
      DemotedIsPrinted(x.items[i].kind, x.items[i].text, printFloat);
    }
  }

  /** It is printed, and laid out, as the source is. */
  lemma {:induction false} DemotedIsShown(x: Lexed, prev: Option<TokenKind>, again: Option<TokenKind>, indent: nat, printFloat: string -> string)
    requires WellLexed(x) && DisplaysFloats(x, printFloat) && Alike(prev, again)
    ensures Shown(Demote(x, printFloat), again, indent, printFloat) == Shown(x, prev, indent, printFloat)
    decreases |x.items|
  {
    hide Separator, Closing, Flatten, Shape, Prints, IsDisplayed, Demoted, Render, PointsOf, AllPieces, Shown, Arrange, Alike;
    var y := Demote(x, printFloat);
    if x.items == [] {
      NothingAlike(prev, again, indent, x.tail, printFloat);
    } else {
      var item := x.items[0];
      var d := y.items[0].kind;
      DemotedIsPrinted(item.kind, item.text, printFloat);
      LaidOutAlike(prev, again, indent, item.gap, item.kind, d);
      ShownUnfolds(x, prev, indent, printFloat);
      ShownUnfolds(y, again, indent, printFloat);
      assert Rest(y) == Demote(Rest(x), printFloat);
      DemotedIsShown(Rest(x), Some(item.kind), Some(d), NextIndent(item.kind, indent), printFloat);
    }
  }

  lemma NothingAlike(prev: Option<TokenKind>, again: Option<TokenKind>, indent: nat, tail: seq<Piece>, printFloat: string -> string)
    requires Alike(prev, again)
    ensures Shown(Lexed([], tail), again, indent, printFloat) == Shown(Lexed([], tail), prev, indent, printFloat)
  {
    LaidOutAlike(prev, again, indent, tail, Eof, Eof);
  }

  // ----- the points of the printed text -----

  lemma WordsAreRun(s: string, rest: string)
    requires forall i | 0 <= i < |s| :: IsWordChar(s[i])
    ensures |s| <= WordLen(s + rest) && (s + rest)[|s|..] == rest
  {
    assert forall i | 0 <= i < |s| :: (s + rest)[i] == s[i];
  }

  lemma FloatPoints(p: string, rest: string)
    requires IsFloat(p) && !StartsWith(rest, '`')
    ensures Points(p + rest) == 1 + Points(rest)
  {
    hide Points, WordLen;
    var n := DigitsLen(p);
    var m := |p| - n - 1;
    var fraction := p[n + 1..];
    assert fraction[..m] == fraction;
    forall i | 0 <= i < n ensures IsWordChar(p[..n][i]) { assert IsDigit(p[..n][i]); }
    WordsAreRun(p[..n], p[n..] + rest);
    WordsAreRun(fraction, rest);
    assert p[..n] + (p[n..] + rest) == p + rest;
    assert (p + rest)[n + 1..] == fraction + rest;
    assert (p + rest)[n + 1 + m..] == rest;
    PointsOfFloat(p + rest, n, m);
  }

  /** A printed token counts its own points, whatever comes after it. */
  lemma PrintedPoints(k: TokenKind, text: string, rest: string, printFloat: string -> string)
    requires Shape(k, text) && Prints(k, printFloat) && !StartsWith(rest, '`') && (k == Sym(Slash) ==> Stops(k, rest))
    ensures var s := Render(k, text, printFloat);
      Points(s + rest) == PointsOf(k) + Points(rest) && NoTrivia(s + rest)
  {
    hide Points, WordLen, SymbolText, KeywordText, Decimal, IsFloat, IsHtml, KeywordFromStr, LexToken, Escape, LineLen, BlockEnd;
    var s := Render(k, text, printFloat);
    RenderBegins(k, text, printFloat);
    assert (s + rest)[0] == s[0];
    assert (s + rest)[|s|..] == rest;
    match k
    case Int(_) => WordPoints(s, rest);
    case Float(_) => FloatPoints(s, rest);
    case Ident(_) => WordPoints(s, rest);
    case Word(w) => KeywordHead(w); WordPoints(s, rest);
    case Sym(symbol) => SymbolPoints(symbol, rest);
    case _ =>
      TokenIsRead(k, text, rest, printFloat);
      PointsOfToken(s + rest);
  }

  lemma WordPoints(s: string, rest: string)
    requires (forall i | 0 <= i < |s| :: IsWordChar(s[i])) && !StartsWith(rest, '`')
    ensures Points(s + rest) == Points(rest)
  {
    hide Points, WordLen;
    WordsAreRun(s, rest);
    PointsInRun(s + rest, |s|);
  }

  lemma SymbolPoints(s: Symbol, rest: string)
    requires s == Slash ==> Stops(Sym(s), rest)
    ensures Points(SymbolText(s) + rest) == PointsOf(Sym(s)) + Points(rest) && NoTrivia(SymbolText(s) + rest)
  {
    hide Points, SymbolText, LexToken, LineLen, BlockEnd;
    var t := SymbolText(s) + rest;
    SymbolHead(s);
    assert t[0] == SymbolText(s)[0];
    if s == Slash { SymbolIsRead(s, rest); }
    assert SymbolText(s) <= t && t[|SymbolText(s)|..] == rest;
    PointsOfSymbol(t, s);
  }

  /** After a token nothing is printed that begins with a backquote. */
  lemma NoBackquote(x: Lexed, prev: TokenKind, indent: nat, printFloat: string -> string)
    requires WellLexed(x) && PrintsFloats(x, printFloat)
    ensures !StartsWith(Shown(x, Some(prev), indent, printFloat), '`')
  {
    hide Separator, Render, Closing, Shape, Tight, IsPiece, Flatten;
    if x.items == [] {
      ClosingBegins(prev, indent, x.tail);
      ClosingIsGap(Some(prev), indent, x.tail);
      GapIsPieces(Closing(Some(prev), indent, x.tail), true);
      GapThenText(Closing(Some(prev), indent, x.tail), "");
      assert Flatten(Closing(Some(prev), indent, x.tail)) + "" == Shown(x, Some(prev), indent, printFloat);
    } else {
      var item := x.items[0];
      var gap := Separator(Some(prev), indent, item.gap, item.kind);
      ShownUnfolds(x, Some(prev), indent, printFloat);
      SeparatorBegins(prev, indent, item.gap, item.kind);
      SeparatorIsGap(Some(prev), indent, item.gap, item.kind);
      GapIsPieces(gap, false);
      GapThenText(gap, Render(item.kind, item.text, printFloat) + Shown(Rest(x), Some(item.kind), NextIndent(item.kind, indent), printFloat));
      RenderBegins(item.kind, item.text, printFloat);
    }
  }

  /** Printing neither makes points nor loses any but those of floats, glued tokens or not. */
  lemma {:induction false} PrintedTotal(x: Lexed, prev: Option<TokenKind>, indent: nat, printFloat: string -> string)
    requires WellLexed(x) && PrintsFloats(x, printFloat)
    ensures Points(Shown(x, prev, indent, printFloat)) == Total(x.items)
    decreases |x.items|
  {
    hide Separator, Render, Closing, Shape, IsPiece, Flatten, LexToken, Stops, Continued, IsGap, NoTrivia, Points, HeadGlued, Prints;
    if x.items == [] {
      assert Shown(x, prev, indent, printFloat) == Flatten(Closing(prev, indent, x.tail));
      ClosingIsRead(prev, indent, x.tail);
      PointsOfAll(Flatten(Closing(prev, indent, x.tail)));
    } else {
      var item := x.items[0];
      var level := NextIndent(item.kind, indent);
      var next := Shown(Rest(x), Some(item.kind), level, printFloat);
      var s := Render(item.kind, item.text, printFloat);
      var gap := Separator(prev, indent, item.gap, item.kind);
      ShownUnfolds(x, prev, indent, printFloat);
      PrintedTotal(Rest(x), Some(item.kind), level, printFloat);
      hide Shown, Arrange;
      SeparatorIsGap(prev, indent, item.gap, item.kind);
      NoBackquote(Rest(x), item.kind, level, printFloat);
      SlashStops(x, level, printFloat);
      PrintedPoints(item.kind, item.text, next, printFloat);
      RenderBegins(item.kind, item.text, printFloat);
      GapIsRead(gap, s + next);
      PointsInTrivia(Flatten(gap) + (s + next));
      assert (Flatten(gap) + (s + next))[|Flatten(gap)|..] == s + next;
    }
  }

  lemma SlashStops(x: Lexed, level: nat, printFloat: string -> string)
    requires WellLexed(x) && PrintsFloats(x, printFloat) && x.items != []
    ensures x.items[0].kind == Sym(Slash) ==> Stops(x.items[0].kind, Shown(Rest(x), Some(x.items[0].kind), level, printFloat))
  {
    hide Shown, WellLexed, PrintsFloats, Stops;
    HeadStops(x, level, printFloat);
  }

  lemma {:induction false} TotalOfValues(a: seq<Item>, b: seq<Item>, printFloat: string -> string)
    requires Values(a, printFloat) == Values(b, printFloat)
    ensures Total(a) == Total(b)
  {
    if a != [] && b != [] {
      assert Values(a, printFloat)[0] == Values(b, printFloat)[0];
      assert Values(a, printFloat)[1..] == Values(a[1..], printFloat) && Values(b, printFloat)[1..] == Values(b[1..], printFloat);
      TotalOfValues(a[1..], b[1..], printFloat);
    }
  }

  lemma {:induction false} DemotedTotal(x: Lexed, printFloat: string -> string)
    requires WellLexed(x) && DisplaysFloats(x, printFloat)
    ensures var total := Total(Demote(x, printFloat).items);
      total <= Total(x.items) && (!PrintsFloats(x, printFloat) ==> total < Total(x.items))
    decreases |x.items|
  {
    hide Shape, Prints, IsDisplayed, Demoted, Alike, Render, PointsOf, AllPieces;
    if x.items != [] {
      var y := Demote(x, printFloat);
      DemotedIsPrinted(x.items[0].kind, x.items[0].text, printFloat);
      assert y.items[1..] == Demote(Rest(x), printFloat).items;
      DemotedTotal(Rest(x), printFloat);
      if Prints(x.items[0].kind, printFloat) && PrintsFloats(Rest(x), printFloat) {
        assert forall i | 0 < i < |x.items| :: x.items[i] == Rest(x).items[i - 1];
      }
    }
  }

  // ----- a whole source -----

  lemma FormatIsShown(t: string, printFloat: string -> string)
    requires LexAll(t).Some? && PrintsVisibly(LexAll(t).value, printFloat)
    ensures Format(t, printFloat) == Some(Shown(LexAll(t).value, None, 0, printFloat))
  {
    hide LexAll, Written, Shown, Render;
    LexedWell(t);
    TrimmedIsShown(LexAll(t).value, None, 0, printFloat);
    assert "" + Written(LexAll(t).value, None, 0, printFloat) == Written(LexAll(t).value, None, 0, printFloat);
  }

  lemma WellLexedIsVisible(x: Lexed, printFloat: string -> string)
    requires WellLexed(x) && PrintsFloats(x, printFloat)
    ensures PrintsVisibly(x, printFloat)
  {
    hide Shape, Render, EndsVisibly;
    forall i | 0 <= i < |x.items| ensures EndsVisibly(Render(x.items[i].kind, x.items[i].text, printFloat)) {
      RenderEndsVisibly(x.items[i].kind, x.items[i].text, printFloat);
    }
  }

  /** What is written for a source, and that it is the print of the demoted source. */
  lemma FormatIsDemoted(t: string, printFloat: string -> string)
    requires LexAll(t).Some? && DisplaysFloats(LexAll(t).value, printFloat)
    ensures var y := Demote(LexAll(t).value, printFloat);
      && WellLexed(y) && PrintsFloats(y, printFloat) && Format(t, printFloat) == Some(Shown(y, None, 0, printFloat))
    ensures Format(t, printFloat) == Some(Shown(LexAll(t).value, None, 0, printFloat))
  {
    hide Shown, LexAll, WellLexed, PrintsFloats, Format, PrintsVisibly, DisplaysFloats, Demote;
    var x := LexAll(t).value;
    LexedWell(t);
    DemotedIsWell(x, printFloat);
    WellLexedIsVisible(Demote(x, printFloat), printFloat);
    VisibleAsDemoted(x, printFloat);
    FormatIsShown(t, printFloat);
    DemotedIsShown(x, None, None, 0, printFloat);
  }

  lemma VisibleAsDemoted(x: Lexed, printFloat: string -> string)
    requires WellLexed(x) && DisplaysFloats(x, printFloat) && PrintsVisibly(Demote(x, printFloat), printFloat)
    ensures PrintsVisibly(x, printFloat)
  {
    hide Shape, Prints, IsDisplayed, Demoted, Alike, Render, PointsOf, AllPieces, EndsVisibly;
    forall i | 0 <= i < |x.items| ensures EndsVisibly(Render(x.items[i].kind, x.items[i].text, printFloat)) {
      DemotedIsPrinted(x.items[i].kind, x.items[i].text, printFloat);
      assert EndsVisibly(Render(Demote(x, printFloat).items[i].kind, Demote(x, printFloat).items[i].text, printFloat));
    }
  }
}
