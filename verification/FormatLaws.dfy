/** The two laws of the formatter, with the exact conditions under which formatting keeps the tokens and is a fixed point. */
module FormatLaws {
  import opened Demotion
  import opened Gaps
  import opened Layout
  import opened Lexing
  import opened Locality
  import opened PointCount
  import opened Rendering
  import opened RoundTrip
  import opened Tokens
  import opened Trimming
  import opened Wrappers

  // ----- reading what was formatted -----

  /** The formatted text is read as the same tokens if and only if every float of the source prints with its point and
      no tokens are glued; and then the comments are the same, gap by gap. */
  lemma FormatKeepsTokens(t: string, printFloat: string -> string)
    requires LexAll(t).Some? && DisplaysFloats(LexAll(t).value, printFloat)
    ensures var x := LexAll(t).value;
      var again := LexAll(Format(t, printFloat).value);
      && (SameValues(again, x.items, printFloat) <==> PrintsFloats(x, printFloat) && !Glued(x.items, 0))
      && (SameValues(again, x.items, printFloat) ==> SameGaps(x, again.value))
  {
    hide Shown, Arrange, LexAll, Glued, Comments, WellLexed, DisplaysFloats, PrintsFloats, Format, Demote, AllFit, Values;
    var x := LexAll(t).value;
    FormatIsDemoted(t, printFloat);
    LexedWell(t);
    if PrintsFloats(x, printFloat) {
      WellLexedIsVisible(x, printFloat);
      FormatIsShown(t, printFloat);
      ReadBack(x, None, 0, printFloat);
      ArrangeTwice(x, None, None, 0, printFloat);
    } else {
      var u := Format(t, printFloat).value;
      PrintedTotal(Demote(x, printFloat), None, 0, printFloat);
      DemotedTotal(x, printFloat);
      if SameValues(LexAll(u), x.items, printFloat) {
        PointsOfAll(u);
        TotalOfValues(LexAll(u).value.items, x.items, printFloat);
        assert false;
      }
    }
  }

  // ----- formatting again -----

  /** A head that is not glued is read as it was printed, if it can be read at all. */
  lemma HeadIsRead(x: Lexed, prev: Option<TokenKind>, indent: nat, printFloat: string -> string)
    requires WellLexed(x) && PrintsFloats(x, printFloat) && x.items != []
    requires !HeadGlued(x.items, NextIndent(x.items[0].kind, indent))
    ensures var item := x.items[0];
      var rest := LexAll(Shown(Rest(x), Some(item.kind), NextIndent(item.kind, indent), printFloat));
      LexAll(Shown(x, prev, indent, printFloat))
      == if !Fits(item.kind) || rest.None? then None
         else Some(Lexed([Item(Separator(prev, indent, item.gap, item.kind), Reprinted(item.kind, printFloat),
                               Render(item.kind, item.text, printFloat))] + rest.value.items, rest.value.tail))
  {
    hide Separator, Shown, Arrange, LexAll, LexToken, HeadGlued, NoTrivia, IsGap, Stops, Continued, Render, Shape, Flatten, Fits;
    var item := x.items[0];
    var level := NextIndent(item.kind, indent);
    var next := Shown(Rest(x), Some(item.kind), level, printFloat);
    var s := Render(item.kind, item.text, printFloat);
    var gap := Separator(prev, indent, item.gap, item.kind);
    ShownUnfolds(x, prev, indent, printFloat);
    SeparatorIsGap(prev, indent, item.gap, item.kind);
    HeadStops(x, level, printFloat);
    RenderBegins(item.kind, item.text, printFloat);
    if Fits(item.kind) {
      TokenIsRead(item.kind, item.text, next, printFloat);
      assert (s + next)[|s|..] == next && (s + next)[..|s|] == s;
      ReadItem(gap, s + next);
      if LexAll(next).None? { NothingThen(gap, Reprinted(item.kind, printFloat), s + next, |s|); }
      else { ItemThenIs(gap, Reprinted(item.kind, printFloat), s + next, |s|); }
    } else {
      BigIntIsRefused(item.kind, item.text, next, printFloat);
      ReadItem(gap, s + next);
    }
  }

  /** No tokens are glued but dots. */
  predicate GluesOnlyDots(items: seq<Item>, indent: nat) {
    items == [] ||
    var level := NextIndent(items[0].kind, indent);
    (HeadGlued(items, level) ==> items[0].kind == Sym(Dot)) && GluesOnlyDots(items[1..], level)
  }

  lemma {:induction false} UngluedGluesOnlyDots(items: seq<Item>, indent: nat)
    requires !Glued(items, indent)
    ensures GluesOnlyDots(items, indent)
  {
    hide HeadGlued, Glued;
    if items != [] {
      GluedUnfolds(items, indent);
      UngluedGluesOnlyDots(items[1..], NextIndent(items[0].kind, indent));
    }
  }

  /** The texts `u` is read as something that prints as `u` again, after a token like `again`; or not at all. */
  ghost predicate Settles(u: string, again: Option<TokenKind>, indent: nat, fits: bool, printFloat: string -> string) {
    if fits then
      && LexAll(u).Some? && PrintsFloats(LexAll(u).value, printFloat)
      && Shown(LexAll(u).value, again, indent, printFloat) == u
    else LexAll(u).None?
  }

  /** Text with one more token at its head. */
  lemma SettlesWithHead(item: Item, rest: string, u: string, again: Option<TokenKind>, indent: nat, fits: bool, printFloat: string -> string)
    requires Settles(rest, Some(item.kind), NextIndent(item.kind, indent), fits, printFloat)
    requires Prints(item.kind, printFloat) && Render(item.kind, item.text, printFloat) == item.text
    requires Separator(again, indent, item.gap, item.kind) == item.gap && u == Flatten(item.gap) + (item.text + rest)
    requires LexAll(u)
      == if LexAll(rest).None? then None else Some(Lexed([item] + LexAll(rest).value.items, LexAll(rest).value.tail))
    ensures Settles(u, again, indent, fits, printFloat)
  {
    hide LexAll, Shown, Arrange, Separator, Render, Flatten, NextIndent, Prints;
    if fits {
      var z := LexAll(u).value;
      assert Rest(z) == LexAll(rest).value;
      assert forall i | 0 < i < |z.items| :: z.items[i] == Rest(z).items[i - 1];
      ShownUnfolds(z, again, indent, printFloat);
    }
  }

  lemma ShownAlike(x: Lexed, p: Option<TokenKind>, q: Option<TokenKind>, indent: nat, printFloat: string -> string)
    requires Alike(p, q)
    ensures Shown(x, p, indent, printFloat) == Shown(x, q, indent, printFloat)
  {
    hide Alike, Separator, Closing, Arrange;
    if x.items == [] {
      NothingAlike(p, q, indent, x.tail, printFloat);
      assert x == Lexed([], x.tail);
    } else {
      hide Shown;
      AlikeItself(x.items[0].kind);
      LaidOutAlike(p, q, indent, x.items[0].gap, x.items[0].kind, x.items[0].kind);
      ShownUnfolds(x, p, indent, printFloat);
      ShownUnfolds(x, q, indent, printFloat);
    }
  }

  lemma AlikeItself(k: TokenKind)
    ensures Alike(Some(k), Some(k)) && Alike(Some(Sym(Dot)), Some(Sym(DotDot)))
  {}

  /** What is printed with no tokens glued but dots is read as something that is printed so again. */
  lemma {:induction false} ShownSettles(x: Lexed, prev: Option<TokenKind>, again: Option<TokenKind>, indent: nat, printFloat: string -> string)
    requires WellLexed(x) && PrintsFloats(x, printFloat) && Alike(prev, again) && GluesOnlyDots(x.items, indent)
    ensures Settles(Shown(x, prev, indent, printFloat), again, indent, AllFit(x), printFloat)
    decreases |x.items|, 1
  {
    hide Settles, Separator, Shown, Arrange, LexAll, HeadGlued, Render, Shape, Flatten, Prints, AllFit, Alike;
    if x.items == [] {
      NothingSettles(x.tail, prev, again, indent, printFloat);
      assert x == Lexed([], x.tail);
    } else if HeadGlued(x.items, NextIndent(x.items[0].kind, indent)) {
      DotsSettle(x, prev, again, indent, printFloat);
    } else {
      var item := x.items[0];
      var k := Reprinted(item.kind, printFloat);
      var level := NextIndent(item.kind, indent);
      var gap := Separator(prev, indent, item.gap, item.kind);
      AlikeReprinted(item.kind, printFloat);
      ShownSettles(Rest(x), Some(item.kind), Some(k), level, printFloat);
      AllFitUnfolds(x);
      HeadIsRead(x, prev, indent, printFloat);
      SeparatorIsFixed(prev, indent, item.gap, item.kind);
      LaidOutAlike(prev, again, indent, gap, item.kind, k);
      RenderTwice(item.kind, item.text, printFloat);
      ShownUnfolds(x, prev, indent, printFloat);
      if Fits(item.kind) {
        SettlesWithHead(Item(gap, k, Render(item.kind, item.text, printFloat)), Shown(Rest(x), Some(item.kind), level, printFloat),
                        Shown(x, prev, indent, printFloat), again, indent, AllFit(Rest(x)), printFloat);
      } else {
        RefusedSettles(Shown(x, prev, indent, printFloat), again, indent, printFloat);
      }
    }
  }

  lemma RefusedSettles(u: string, again: Option<TokenKind>, indent: nat, printFloat: string -> string)
    requires LexAll(u).None?
    ensures Settles(u, again, indent, false, printFloat)
  {}

  lemma AlikeReprinted(k: TokenKind, printFloat: string -> string)
    requires Prints(k, printFloat)
    ensures Alike(Some(k), Some(Reprinted(k, printFloat))) && Prints(Reprinted(k, printFloat), printFloat)
    ensures forall indent :: NextIndent(Reprinted(k, printFloat), indent) == NextIndent(k, indent)
  {}

  lemma NothingSettles(tail: seq<Piece>, prev: Option<TokenKind>, again: Option<TokenKind>, indent: nat, printFloat: string -> string)
    requires AllPieces(tail) && Alike(prev, again)
    ensures Settles(Shown(Lexed([], tail), prev, indent, printFloat), again, indent, AllFit(Lexed([], tail)), printFloat)
  {
    hide Closing, LexAll, Flatten, Alike;
    ClosingIsRead(prev, indent, tail);
    ClosingIsFixed(prev, indent, tail);
    AlikeItself(Eof);
    LaidOutAlike(prev, again, indent, Closing(prev, indent, tail), Eof, Eof);
  }

  /** A dot and the dots printed right after it: the first two are read as one token. */
  lemma {:induction false} DotsSettle(x: Lexed, prev: Option<TokenKind>, again: Option<TokenKind>, indent: nat, printFloat: string -> string)
    requires WellLexed(x) && PrintsFloats(x, printFloat) && Alike(prev, again) && GluesOnlyDots(x.items, indent)
    requires x.items != [] && HeadGlued(x.items, NextIndent(x.items[0].kind, indent))
    ensures Settles(Shown(x, prev, indent, printFloat), again, indent, AllFit(x), printFloat)
    decreases |x.items|, 0
  {
    hide Settles, Separator, Shown, Arrange, LexAll, HeadGlued, Render, Shape, Flatten, Prints, AllFit, Alike;
    var item := x.items[0];
    var gap := Separator(prev, indent, item.gap, item.kind);
    var y := TwoDots(x, prev, indent, printFloat);
    DotDotIsPrinted(printFloat, indent);
    ShownSettles(y, Some(Sym(Dot)), Some(Sym(DotDot)), indent, printFloat);
    SeparatorIsGap(prev, indent, item.gap, item.kind);
    TwoDotsAreRead(gap, Shown(y, Some(Sym(Dot)), indent, printFloat));
    SeparatorIsFixed(prev, indent, item.gap, item.kind);
    LaidOutAlike(prev, again, indent, gap, Sym(Dot), Sym(DotDot));
    SettlesWithHead(Item(gap, Sym(DotDot), ".."), Shown(y, Some(Sym(Dot)), indent, printFloat),
                    Shown(x, prev, indent, printFloat), again, indent, AllFit(y), printFloat);
  }

  lemma DotDotIsPrinted(printFloat: string -> string, indent: nat)
    ensures Prints(Sym(DotDot), printFloat) && Render(Sym(DotDot), "..", printFloat) == ".." && Alike(Some(Sym(Dot)), Some(Sym(DotDot)))
    ensures NextIndent(Sym(DotDot), indent) == NextIndent(Sym(Dot), indent) == indent
  {}

  lemma HeadIsTight(x: Lexed, prev: TokenKind, indent: nat, printFloat: string -> string)
    requires x.items != [] && Tight(prev, indent, x.items[0].gap, x.items[0].kind)
    ensures var item := x.items[0];
      Shown(x, Some(prev), indent, printFloat)
      == Render(item.kind, item.text, printFloat) + Shown(Rest(x), Some(item.kind), NextIndent(item.kind, indent), printFloat)
  {
    hide Shown, Arrange, Render, NextIndent, Tight, Separator;
    SeparatorBegins(prev, indent, x.items[0].gap, x.items[0].kind);
    ShownUnfolds(x, Some(prev), indent, printFloat);
  }

  /** What is left when the first two dots are taken away. */
  lemma TwoDots(x: Lexed, prev: Option<TokenKind>, indent: nat, printFloat: string -> string) returns (y: Lexed)
    requires WellLexed(x) && PrintsFloats(x, printFloat) && GluesOnlyDots(x.items, indent)
    requires x.items != [] && HeadGlued(x.items, NextIndent(x.items[0].kind, indent))
    ensures x.items[0].kind == Sym(Dot)
    ensures WellLexed(y) && PrintsFloats(y, printFloat) && GluesOnlyDots(y.items, indent)
    ensures |y.items| < |x.items| && (AllFit(y) <==> AllFit(x))
    ensures Shown(x, prev, indent, printFloat)
      == Flatten(Separator(prev, indent, x.items[0].gap, x.items[0].kind)) + (".." + Shown(y, Some(Sym(Dot)), indent, printFloat))
  {
    hide Separator, Shown, Arrange, Flatten, Tight;
    var rest := Rest(Rest(x));
    ShownUnfolds(x, prev, indent, printFloat);
    HeadIsTight(Rest(x), Sym(Dot), indent, printFloat);
    if x.items[1].kind == Sym(Dot) {
      y := rest;
      assert "." + ("." + Shown(y, Some(Sym(Dot)), indent, printFloat)) == ".." + Shown(y, Some(Sym(Dot)), indent, printFloat);
    } else {
      y := Lexed([Item([], Sym(Dot), ".")] + rest.items, rest.tail);
      assert Rest(y) == rest;
      DotsAreTight(indent);
      HeadIsTight(y, Sym(Dot), indent, printFloat);
      ShownAlike(rest, Some(Sym(Dot)), Some(Sym(DotDot)), indent, printFloat);
      var next := Shown(rest, Some(Sym(Dot)), indent, printFloat);
      assert "." + (".." + next) == ".." + ("." + next);
    }
  }

  lemma DotsAreTight(indent: nat)
    ensures Tight(Sym(Dot), indent, [], Sym(Dot)) && Alike(Some(Sym(Dot)), Some(Sym(DotDot)))
  {}

  lemma TwoDotsAreRead(gap: seq<Piece>, rest: string)
    requires IsGap(gap, false)
    ensures LexAll(Flatten(gap) + (".." + rest))
      == if LexAll(rest).None? then None
         else Some(Lexed([Item(gap, Sym(DotDot), "..")] + LexAll(rest).value.items, LexAll(rest).value.tail))
  {
    hide LexAll, LexToken, NoTrivia, IsGap, Flatten;
    var s := ".." + rest;
    assert s == "." + ("." + rest) && s[2..] == rest && s[..2] == "..";
    SymbolIsMisread(Dot, "." + rest);
    ContinuedIsMisread(Sym(Dot), ".", "." + rest, t => t);
    ReadItem(gap, s);
    if LexAll(rest).None? { NothingThen(gap, Sym(DotDot), s, 2); } else { ItemThenIs(gap, Sym(DotDot), s, 2); }
  }

  /** Formatting a formatted text changes nothing, if no tokens are glued but dots; except that a text with an integer
      too big to be read is not formatted again. */
  lemma FormatIsIdempotent(t: string, printFloat: string -> string)
    requires LexAll(t).Some? && DisplaysFloats(LexAll(t).value, printFloat)
    requires GluesOnlyDots(Demote(LexAll(t).value, printFloat).items, 0)
    ensures var once := Format(t, printFloat).value;
      Format(once, printFloat) == if AllFit(Demote(LexAll(t).value, printFloat)) then Some(once) else None
  {
    hide Arrange, LexAll, WellLexed, PrintsFloats, Demote, DisplaysFloats, AllFit, Written, TrimEnd, Shown, PrintsVisibly;
    var y := Demote(LexAll(t).value, printFloat);
    var once := Format(t, printFloat).value;
    FormatIsDemoted(t, printFloat);
    ShownSettles(y, None, None, 0, printFloat);
    if AllFit(y) {
      LexedWell(once);
      WellLexedIsVisible(LexAll(once).value, printFloat);
      FormatIsShown(once, printFloat);
    }
  }

  /** A text that was formatted without gluing any tokens is read as the demoted source, unless an integer in it is
      too big to be read; and formatting it again changes nothing. */
  lemma FormatIsRead(t: string, printFloat: string -> string)
    requires LexAll(t).Some? && DisplaysFloats(LexAll(t).value, printFloat)
    requires !Glued(Demote(LexAll(t).value, printFloat).items, 0)
    ensures var y := Demote(LexAll(t).value, printFloat);
      var once := Format(t, printFloat).value;
      && LexAll(once) == (if AllFit(y) then Some(Arrange(y, None, 0, printFloat)) else None)
      && Format(once, printFloat) == (if AllFit(y) then Some(once) else None)
  {
    hide Arrange, LexAll, Glued, WellLexed, PrintsFloats, Demote, DisplaysFloats, AllFit, Format, GluesOnlyDots;
    var y := Demote(LexAll(t).value, printFloat);
    FormatIsDemoted(t, printFloat);
    ReadBack(y, None, 0, printFloat);
    UngluedGluesOnlyDots(y.items, 0);
    FormatIsIdempotent(t, printFloat);
  }
}
