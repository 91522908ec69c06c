/** Formatting and reading undo each other, exactly when no tokens are printed so that they are read as others. */
module RoundTrip {
  import opened Chars
  import opened Gaps
  import opened Layout
  import opened Lexing
  import opened Locality
  import opened Rendering
  import opened Tokens
  import opened Trimming
  import opened Wrappers

  /** What holds of every lexed source. */
  predicate WellLexed(x: Lexed) {
    && AllPieces(x.tail)
    && forall i | 0 <= i < |x.items| :: AllPieces(x.items[i].gap) && Shape(x.items[i].kind, x.items[i].text)
  }

  predicate AllFit(x: Lexed) { forall i | 0 <= i < |x.items| :: Fits(x.items[i].kind) }

  /** Floats are printed with their point. */
  predicate PrintsFloats(x: Lexed, printFloat: string -> string) {
    forall i | 0 <= i < |x.items| :: Prints(x.items[i].kind, printFloat)
  }

  lemma {:induction false} LexedWell(t: string)
    requires LexAll(t).Some?
    ensures WellLexed(LexAll(t).value) && AllFit(LexAll(t).value)
    decreases |t|
  {
    hide LexToken, Shape, Trivia, Width, IsPiece, IsGap;
    var gap := Trivia(t).value;
    var n := Width(gap);
    TriviaIsGap(t);
    GapIsPieces(gap, n == |t|);
    if n < |t| {
      TokenShape(t[n..]);
      var (k, m) := LexToken(t[n..]).value;
      assert t[n..][..m] == t[n..n + m];
      LexedWell(t[n + m..]);
      var rest := LexAll(t[n + m..]).value;
      assert LexAll(t).value == Lexed([Item(gap, k, t[n..n + m])] + rest.items, rest.tail);
    }
  }

  // ----- the printed text is read -----

  lemma WhiteStops(k: TokenKind, rest: string)
    requires rest == "" || IsWhitespace(rest[0])
    ensures Stops(k, rest)
  {}

  /** The first printed character is a digit only if a number is printed without a space. */
  lemma DigitFirst(x: Lexed, prev: TokenKind, indent: nat, printFloat: string -> string)
    requires WellLexed(x) && PrintsFloats(x, printFloat)
    ensures var s := Shown(x, Some(prev), indent, printFloat);
      s != "" && IsDigit(s[0]) <==>
      x.items != [] && Tight(prev, indent, x.items[0].gap, x.items[0].kind) && (x.items[0].kind.Int? || x.items[0].kind.Float?)
  {
    hide Separator, Render, Closing, Shape, Tight, IsPiece, Flatten;
    if x.items == [] {
      ClosingBegins(prev, indent, x.tail);
      ClosingIsGap(Some(prev), indent, x.tail);
      GapIsPieces(Closing(Some(prev), indent, x.tail), true);
      GapThenText(Closing(Some(prev), indent, x.tail), "");
      assert Flatten(Closing(Some(prev), indent, x.tail)) + "" == Shown(x, Some(prev), indent, printFloat);
    } else {
      var item := x.items[0];
      var gap := Separator(Some(prev), indent, item.gap, item.kind);
      ShownUnfolds(x, Some(prev), indent, printFloat);
      SeparatorBegins(prev, indent, item.gap, item.kind);
      SeparatorIsGap(Some(prev), indent, item.gap, item.kind);
      GapIsPieces(gap, false);
      GapThenText(gap, Render(item.kind, item.text, printFloat) + Shown(Rest(x), Some(item.kind), NextIndent(item.kind, indent), printFloat));
      RenderBegins(item.kind, item.text, printFloat);
    }
  }

  /** Printed as `Arrange` has it, the first token and the next one or two are read as others. */
  predicate HeadGlued(items: seq<Item>, level: nat) {
    |items| > 1 &&
    ((Tight(items[0].kind, level, items[1].gap, items[1].kind) && RunTogether(items[0].kind, items[1].kind)) || ReadAsFloat(items, level))
  }

  lemma HeadStops(x: Lexed, level: nat, printFloat: string -> string)
    requires WellLexed(x) && PrintsFloats(x, printFloat) && x.items != []
    ensures var next := Shown(Rest(x), Some(x.items[0].kind), level, printFloat);
      if HeadGlued(x.items, level) then Continued(x.items[0].kind, next) else Stops(x.items[0].kind, next)
  {
    hide Separator, Render, Closing, Shape, Tight, IsPiece, Flatten, Stops, Continued, RunTogether;
    var k := x.items[0].kind;
    var next := Shown(Rest(x), Some(k), level, printFloat);
    if |x.items| == 1 {
      ClosingBegins(k, level, x.tail);
      ClosingIsGap(Some(k), level, x.tail);
      GapIsPieces(Closing(Some(k), level, x.tail), true);
      GapThenText(Closing(Some(k), level, x.tail), "");
      assert Flatten(Closing(Some(k), level, x.tail)) + "" == next;
      WhiteStops(k, next);
    } else {
      var item := x.items[1];
      var gap := Separator(Some(k), level, item.gap, item.kind);
      var rest := Shown(Rest(Rest(x)), Some(item.kind), NextIndent(item.kind, level), printFloat);
      ShownUnfolds(Rest(x), Some(k), level, printFloat);
      SeparatorBegins(k, level, item.gap, item.kind);
      SeparatorIsGap(Some(k), level, item.gap, item.kind);
      GapIsPieces(gap, false);
      GapThenText(gap, Render(item.kind, item.text, printFloat) + rest);
      if gap == [] {
        TightHeadStops(x, level, printFloat);
      } else {
        WhiteStops(k, next);
      }
    }
  }

  lemma TightHeadStops(x: Lexed, level: nat, printFloat: string -> string)
    requires WellLexed(x) && PrintsFloats(x, printFloat) && |x.items| > 1
    requires Tight(x.items[0].kind, level, x.items[1].gap, x.items[1].kind)
    ensures var rest := Shown(Rest(Rest(x)), Some(x.items[1].kind), NextIndent(x.items[1].kind, level), printFloat);
      var next := Render(x.items[1].kind, x.items[1].text, printFloat) + rest;
      if HeadGlued(x.items, level) then Continued(x.items[0].kind, next) else Stops(x.items[0].kind, next)
  {
    var k, item := x.items[0].kind, x.items[1];
    var rest := Shown(Rest(Rest(x)), Some(item.kind), NextIndent(item.kind, level), printFloat);
    assert !NeedsSpaceBefore(k, item.kind);
    hide Render, Shape, Tight, IsPiece, Stops, Continued, RunTogether, NeedsSpaceBefore;
    StopsUnlessRunTogether(k, x.items[0].text, item.kind, item.text, rest, printFloat);
    if item.kind == Sym(Dot) {
      DigitFirst(Rest(Rest(x)), item.kind, level, printFloat);
    }
  }

  // ----- reading a formatted text -----

  /** The tokens with the values of their floats, which are told apart by how they are printed. */
  function Values(items: seq<Item>, printFloat: string -> string): seq<TokenKind> {
    if items == [] then [] else [Reprinted(items[0].kind, printFloat)] + Values(items[1..], printFloat)
  }

  /** An item of `n` characters of `s`, and what the rest of `s` is read as. */
  function ItemThen(gap: seq<Piece>, k: TokenKind, s: string, n: nat): Option<Lexed>
    requires n <= |s|
  {
    var rest := LexAll(s[n..]);
    if rest.None? then None else Some(Lexed([Item(gap, k, s[..n])] + rest.value.items, rest.value.tail))
  }

  lemma LexAllUnfolds(t: string, n: nat)
    requires Trivia(t).Some? && n == Width(Trivia(t).value) < |t|
    ensures var s := t[n..];
      LexAll(t)
      == if LexToken(s).None? then None else ItemThen(Trivia(t).value, LexToken(s).value.0, s, LexToken(s).value.1)
  {
    hide LexToken, Trivia, Width;
    var s := t[n..];
    if LexToken(s).Some? {
      var m := LexToken(s).value.1;
      assert t[n + m..] == s[m..] && t[n..n + m] == s[..m];
    }
  }

  lemma ReadItem(gap: seq<Piece>, s: string)
    requires IsGap(gap, false) && s != "" && NoTrivia(s)
    ensures LexAll(Flatten(gap) + s)
      == if LexToken(s).None? then None else ItemThen(gap, LexToken(s).value.0, s, LexToken(s).value.1)
  {
    hide LexToken, Trivia, NoTrivia, IsGap, LexAll, ItemThen, Width, Flatten;
    var t := Flatten(gap) + s;
    GapIsRead(gap, s);
    assert t[|Flatten(gap)|..] == s;
    LexAllUnfolds(t, |Flatten(gap)|);
  }

  lemma GluedUnfolds(items: seq<Item>, indent: nat)
    requires items != []
    ensures var level := NextIndent(items[0].kind, indent);
      Glued(items, indent) <==> HeadGlued(items, level) || Glued(items[1..], level)
  {
    hide Tight, RunTogether, ReadAsFloat, NextIndent;
  }

  /** The same tokens in the same order, floats being the same when their values are. */
  predicate SameValues(read: Option<Lexed>, items: seq<Item>, printFloat: string -> string) {
    read.Some? && Values(read.value.items, printFloat) == Values(items, printFloat)
  }

  lemma ValuesUnfold(gap: seq<Piece>, k: TokenKind, s: string, n: nat, items: seq<Item>, printFloat: string -> string)
    requires n <= |s| && items != []
    ensures SameValues(ItemThen(gap, k, s, n), items, printFloat)
      <==> Reprinted(k, printFloat) == Reprinted(items[0].kind, printFloat) && SameValues(LexAll(s[n..]), items[1..], printFloat)
  {
    hide LexAll, Reprinted;
    var rest := LexAll(s[n..]);
    if rest.Some? {
      var items' := ItemThen(gap, k, s, n).value.items;
      assert items'[1..] == rest.value.items;
      assert Values(items', printFloat)[1..] == Values(rest.value.items, printFloat);
      assert Values(items, printFloat)[1..] == Values(items[1..], printFloat);
    }
  }

  /** The printed text is read as it was arranged if all integers fit, unless tokens are glued; then it is read as other
      tokens, if at all. */
  lemma {:induction false} ReadBack(x: Lexed, prev: Option<TokenKind>, indent: nat, printFloat: string -> string)
    requires WellLexed(x) && PrintsFloats(x, printFloat)
    ensures var read := LexAll(Shown(x, prev, indent, printFloat));
      if Glued(x.items, indent) then !SameValues(read, x.items, printFloat)
      else read == if AllFit(x) then Some(Arrange(x, prev, indent, printFloat)) else None
    decreases |x.items|
  {
    hide Separator, Render, Closing, Shape, IsPiece, Flatten, LexToken, LexAll, Stops, Continued, IsGap, NoTrivia;
    hide Glued, HeadGlued, NextIndent, ItemThen, SameValues, AllFit;
    if x.items == [] {
      assert !Glued(x.items, indent) && AllFit(x) by { NothingGlued(indent); }
      assert Shown(x, prev, indent, printFloat) == Flatten(Closing(prev, indent, x.tail));
      ClosingIsRead(prev, indent, x.tail);
    } else {
      var item := x.items[0];
      var level := NextIndent(item.kind, indent);
      var next := Shown(Rest(x), Some(item.kind), level, printFloat);
      var s := Render(item.kind, item.text, printFloat);
      var gap := Separator(prev, indent, item.gap, item.kind);
      ShownUnfolds(x, prev, indent, printFloat);
      hide Arrange, Shown;
      SeparatorIsGap(prev, indent, item.gap, item.kind);
      GluedUnfolds(x.items, indent);
      HeadStops(x, level, printFloat);
      RenderBegins(item.kind, item.text, printFloat);
      AllFitUnfolds(x);
      if HeadGlued(x.items, level) {
        ContinuedIsMisread(item.kind, item.text, next, printFloat);
        ReadItem(gap, s + next);
        MisreadDiffers(gap, s + next, x.items, printFloat);
      } else if !Fits(item.kind) {
        BigIntIsRefused(item.kind, item.text, next, printFloat);
        ReadItem(gap, s + next);
        MisreadDiffers(gap, s + next, x.items, printFloat);
      } else {
        TokenIsRead(item.kind, item.text, next, printFloat);
        ReadBack(Rest(x), Some(item.kind), level, printFloat);
        assert (s + next)[|s|..] == next && (s + next)[..|s|] == s;
        ReadItem(gap, s + next);
        ValuesUnfold(gap, Reprinted(item.kind, printFloat), s + next, |s|, x.items, printFloat);
        if LexAll(next).None? {
          NothingThen(gap, Reprinted(item.kind, printFloat), s + next, |s|);
        } else if !Glued(x.items[1..], level) {
          ItemThenIs(gap, Reprinted(item.kind, printFloat), s + next, |s|);
        }
      }
    }
  }

  lemma AllFitUnfolds(x: Lexed)
    requires x.items != []
    ensures AllFit(x) <==> Fits(x.items[0].kind) && AllFit(Rest(x))
  {
    if AllFit(Rest(x)) {
      assert forall i | 0 < i < |x.items| :: x.items[i] == Rest(x).items[i - 1];
    }
  }

  lemma NothingGlued(indent: nat)
    ensures !Glued([], indent) && forall tail :: AllFit(Lexed([], tail))
  {}

  lemma NothingThen(gap: seq<Piece>, k: TokenKind, s: string, n: nat)
    requires n <= |s| && LexAll(s[n..]).None?
    ensures ItemThen(gap, k, s, n) == None
  {}

  lemma ItemThenIs(gap: seq<Piece>, k: TokenKind, s: string, n: nat)
    requires n <= |s| && LexAll(s[n..]).Some?
    ensures var rest := LexAll(s[n..]).value;
      ItemThen(gap, k, s, n) == Some(Lexed([Item(gap, k, s[..n])] + rest.items, rest.tail))
  {}

  lemma MisreadDiffers(gap: seq<Piece>, s: string, items: seq<Item>, printFloat: string -> string)
    requires s != "" && items != [] && !items[0].kind.Float? && (LexToken(s).None? || LexToken(s).value.0 != items[0].kind)
    ensures LexToken(s).Some? ==> !SameValues(ItemThen(gap, LexToken(s).value.0, s, LexToken(s).value.1), items, printFloat)
    ensures !SameValues(None, items, printFloat)
  {
    hide LexToken;
    if LexToken(s).Some? {
      ValuesUnfold(gap, LexToken(s).value.0, s, LexToken(s).value.1, items, printFloat);
    }
  }

  lemma ClosingIsRead(prev: Option<TokenKind>, indent: nat, gap: seq<Piece>)
    requires AllPieces(gap)
    ensures LexAll(Flatten(Closing(prev, indent, gap))) == Some(Lexed([], Closing(prev, indent, gap)))
  {
    var closing := Closing(prev, indent, gap);
    ClosingIsGap(prev, indent, gap);
    hide Closing, IsGap, AllPieces, IsPiece, Flatten, Trivia, Width;
    assert NoTrivia("");
    GapIsRead(closing, "");
    assert Flatten(closing) + "" == Flatten(closing);
  }

  /** Numbers and names, which are laid out alike; only the name `db` begins a declaration. */
  predicate IsOperand(k: TokenKind) { k.Int? || k.Float? || (k.Ident? && k.name != "db") }

  predicate IsDots(k: TokenKind) { k == Sym(Dot) || k == Sym(DotDot) }

  /** Two kinds, or none, that are laid out alike. */
  predicate Alike(p: Option<TokenKind>, q: Option<TokenKind>) {
    p == q
    || (p.Some? && q.Some? && ((IsOperand(p.value) && IsOperand(q.value)) || (IsDots(p.value) && IsDots(q.value))))
  }

  lemma LaidOutAlike(p: Option<TokenKind>, q: Option<TokenKind>, indent: nat, gap: seq<Piece>, k: TokenKind, l: TokenKind)
    requires Alike(p, q) && Alike(Some(k), Some(l))
    ensures Separator(p, indent, gap, k) == Separator(q, indent, gap, l) && NextIndent(k, indent) == NextIndent(l, indent)
    ensures Closing(p, indent, gap) == Closing(q, indent, gap)
  {
    SpacedAlike(p, q, k, l);
    DeclaresAlike(k, l);
    EndsAlike(p, q);
    hide CommentPieces, CommentsOf, NeedsSpaceBefore, StartsTopLevelDecl, Alike, AtStart;
  }

  lemma SpacedAlike(p: Option<TokenKind>, q: Option<TokenKind>, k: TokenKind, l: TokenKind)
    requires Alike(p, q) && Alike(Some(k), Some(l))
    ensures p.Some? == q.Some? && (p.Some? ==> NeedsSpaceBefore(p.value, k) == NeedsSpaceBefore(q.value, l))
  {}

  lemma DeclaresAlike(k: TokenKind, l: TokenKind)
    requires Alike(Some(k), Some(l))
    ensures StartsTopLevelDecl(k) == StartsTopLevelDecl(l)
    ensures (k == Sym(RBrace) <==> l == Sym(RBrace)) && (k == Sym(LBrace) <==> l == Sym(LBrace))
  {}

  lemma EndsAlike(p: Option<TokenKind>, q: Option<TokenKind>)
    requires Alike(p, q)
    ensures AtStart(p) == AtStart(q) && (p.Some? && q.Some? ==> (p.value == Sym(RBrace) <==> q.value == Sym(RBrace)))
  {}

  /** Arranging what is arranged changes nothing, and each gap keeps its comments. */
  lemma {:induction false} ArrangeTwice(x: Lexed, prev: Option<TokenKind>, again: Option<TokenKind>, indent: nat, printFloat: string -> string)
    requires PrintsFloats(x, printFloat) && Alike(prev, again)
    ensures var y := Arrange(x, prev, indent, printFloat);
      && Arrange(y, again, indent, printFloat) == y
      && Values(y.items, printFloat) == Values(x.items, printFloat) && SameGaps(x, y)
    decreases |x.items|
  {
    hide Separator, Render, Closing, Comments, IsFloat;
    var y := Arrange(x, prev, indent, printFloat);
    if x.items == [] {
      ClosingIsFixed(prev, indent, x.tail);
      LaidOutAlike(prev, again, indent, y.tail, Eof, Eof);
    } else {
      var item := x.items[0];
      var k := Reprinted(item.kind, printFloat);
      var level := NextIndent(item.kind, indent);
      SeparatorIsFixed(prev, indent, item.gap, item.kind);
      LaidOutAlike(prev, again, indent, y.items[0].gap, item.kind, k);
      RenderTwice(item.kind, item.text, printFloat);
      ArrangeTwice(Rest(x), Some(item.kind), Some(k), level, printFloat);
      var z := Arrange(Rest(x), Some(item.kind), level, printFloat);
      assert y.items[1..] == z.items;
      assert Rest(y) == z;
      forall i | 0 <= i < |x.items| ensures Comments(y.items[i].gap) == Comments(x.items[i].gap) {
        if i > 0 {
          assert z.items[i - 1] == y.items[i] && Rest(x).items[i - 1] == x.items[i];
        }
      }
    }
  }

  lemma RenderTwice(k: TokenKind, text: string, printFloat: string -> string)
    requires Prints(k, printFloat)
    ensures Render(Reprinted(k, printFloat), Render(k, text, printFloat), printFloat) == Render(k, text, printFloat)
    ensures Reprinted(Reprinted(k, printFloat), printFloat) == Reprinted(k, printFloat)
  {}

  /** The comments are the same, in the same order and between the same tokens. */
  predicate SameGaps(x: Lexed, y: Lexed) {
    && |x.items| == |y.items| && Comments(y.tail) == Comments(x.tail)
    && forall i | 0 <= i < |x.items| :: Comments(y.items[i].gap) == Comments(x.items[i].gap)
  }
}
