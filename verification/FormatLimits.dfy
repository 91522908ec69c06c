/** Where the laws of the formatter fail: operators that glue, and inputs. */
module FormatLimits {
  import opened Chars
  import opened Demotion
  import opened FormatLaws
  import opened Gaps
  import opened Layout
  import opened Lexing
  import opened Locality
  import opened Rendering
  import opened RoundTrip
  import opened Tokens
  import opened Trimming
  import opened Wrappers

  // ----- glued operators -----

  /** The first token that is glued is a `?` or `!` that is printed right after another token, though not after one of
      `.`, `..`, `!`, `(`, `[` and `@`. */
  predicate GluesOperator(items: seq<Item>, prev: Option<TokenKind>, indent: nat) {
    items != [] &&
    var (k, level) := (items[0].kind, NextIndent(items[0].kind, indent));
    if HeadGlued(items, level) then
      (k == Sym(Question) || k == Sym(Bang)) && prev.Some? && Tight(prev.value, indent, items[0].gap, k) && !NoSpaceAfter(prev.value)
    else GluesOperator(items[1..], Some(k), level)
  }

  function Doubled(k: TokenKind): TokenKind { if k == Sym(Question) then Sym(QuestionQuestion) else Sym(NotEq) }

  /** It is read as an operator. */
  lemma GluedIsOperator(k: TokenKind, text: string, next: string, printFloat: string -> string)
    requires (k == Sym(Question) || k == Sym(Bang)) && Continued(k, next)
    ensures var u := Render(k, text, printFloat) + next;
      && u != "" && u[0] != ' '
      && (LexAll(u).Some? ==> LexAll(u).value.items != [] && LexAll(u).value.items[0] == Item([], Doubled(k), u[..2]))
  {
    hide LexAll, LexToken, NoTrivia, IsGap;
    var s := SymbolText(k.symbol);
    var u := s + next;
    ContinuedIsMisread(k, text, next, printFloat);
    SymbolIsMisread(k.symbol, next);
    assert Flatten([]) + u == u;
    NothingIsGap();
    ReadItem([], u);
  }

  /** Before that operator a space is printed then. */
  lemma OperatorMovesAway(x: Lexed, prev: TokenKind, again: TokenKind, indent: nat, printFloat: string -> string)
    requires WellLexed(x) && PrintsFloats(x, printFloat) && Alike(Some(prev), Some(again))
    requires x.items != [] && HeadGlued(x.items, NextIndent(x.items[0].kind, indent)) && GluesOperator(x.items, Some(prev), indent)
    ensures var u := Shown(x, Some(prev), indent, printFloat);
      u != "" && u[0] != ' ' && (LexAll(u).Some? ==> StartsWith(Shown(LexAll(u).value, Some(again), indent, printFloat), ' '))
  {
    hide Shown, LexAll, Tight, HeadGlued, Stops, Continued, Render, NextIndent, NoSpaceAfter, WellLexed, PrintsFloats, Alike;
    hide Separator, Arrange;
    var item := x.items[0];
    var next := Shown(Rest(x), Some(item.kind), NextIndent(item.kind, indent), printFloat);
    HeadIsTight(x, prev, indent, printFloat);
    HeadStops(x, NextIndent(item.kind, indent), printFloat);
    GluedIsOperator(item.kind, item.text, next, printFloat);
    OperatorIsSpaced(prev, again, indent, item.gap, item.kind, Doubled(item.kind));
    if LexAll(Shown(x, Some(prev), indent, printFloat)).Some? {
      SpaceFirst(LexAll(Shown(x, Some(prev), indent, printFloat)).value, Some(again), indent, printFloat);
    }
  }

  lemma SpaceFirst(x: Lexed, prev: Option<TokenKind>, indent: nat, printFloat: string -> string)
    requires x.items != [] && Separator(prev, indent, x.items[0].gap, x.items[0].kind) == [White(' ')]
    ensures StartsWith(Shown(x, prev, indent, printFloat), ' ')
  {
    hide Flatten, Shown, Arrange, Separator, Render;
    NewlineText();
    ShownUnfolds(x, prev, indent, printFloat);
  }

  lemma OperatorIsSpaced(prev: TokenKind, again: TokenKind, indent: nat, gap: seq<Piece>, k: TokenKind, op: TokenKind)
    requires Tight(prev, indent, gap, k) && !NoSpaceAfter(prev) && Alike(Some(prev), Some(again))
    requires op == Sym(QuestionQuestion) || op == Sym(NotEq)
    ensures Separator(Some(again), indent, [], op) == [White(' ')]
  {}

  lemma {:induction false} GluedOperatorMoves(x: Lexed, prev: Option<TokenKind>, again: Option<TokenKind>, indent: nat,
                                              printFloat: string -> string)
    requires WellLexed(x) && PrintsFloats(x, printFloat) && Alike(prev, again) && GluesOperator(x.items, prev, indent)
    ensures var u := Shown(x, prev, indent, printFloat);
      LexAll(u).Some? ==> Shown(LexAll(u).value, again, indent, printFloat) != u
    decreases |x.items|
  {
    hide Separator, Shown, Arrange, LexAll, LexToken, Tight, HeadGlued, NoTrivia, IsGap, Stops, Continued, Render, Shape, Flatten, Prints;
    var item := x.items[0];
    var level := NextIndent(item.kind, indent);
    if HeadGlued(x.items, level) {
      OperatorMovesAway(x, prev.value, again.value, indent, printFloat);
    } else if LexAll(Shown(x, prev, indent, printFloat)).Some? {
      var k := Reprinted(item.kind, printFloat);
      var next := Shown(Rest(x), Some(item.kind), level, printFloat);
      HeadIsRead(x, prev, indent, printFloat);
      var z := LexAll(next).value;
      SeparatorIsFixed(prev, indent, item.gap, item.kind);
      LaidOutAlike(prev, again, indent, Separator(prev, indent, item.gap, item.kind), item.kind, k);
      RenderTwice(item.kind, item.text, printFloat);
      ShownUnfolds(x, prev, indent, printFloat);
      var whole := LexAll(Shown(x, prev, indent, printFloat)).value;
      ShownUnfolds(whole, again, indent, printFloat);
      assert Rest(whole) == z;
      SameTail(Flatten(whole.items[0].gap), whole.items[0].text, Shown(z, Some(k), level, printFloat), next);
      GluedOperatorMoves(Rest(x), Some(item.kind), Some(k), level, printFloat);
    }
  }

  lemma SameTail(a: string, b: string, s: string, t: string)
    ensures a + (b + s) == a + (b + t) ==> s == t
  {
    assert (a + (b + s))[|a| + |b|..] == s && (a + (b + t))[|a| + |b|..] == t;
  }

  /** Every float literal is displayed so, whether it stands in the source or not. */
  ghost predicate Displays(printFloat: string -> string) { forall s | IsFloat(s) :: IsDisplayed(printFloat(s), printFloat) }

  /** A source that glues an operator is formatted to a text that changes when it is formatted again, or cannot be. */
  lemma GluedOperatorChanges(t: string, printFloat: string -> string)
    requires LexAll(t).Some? && Displays(printFloat) && GluesOperator(Demote(LexAll(t).value, printFloat).items, None, 0)
    ensures DisplaysFloats(LexAll(t).value, printFloat)
    ensures Format(Format(t, printFloat).value, printFloat) != Format(t, printFloat)
  {
    hide Arrange, LexAll, WellLexed, PrintsFloats, Demote, Written, TrimEnd, IsDisplayed, Displays, DisplaysFloats, GluesOperator, Shown;
    LexedDisplays(t, printFloat);
    var once := Format(t, printFloat).value;
    FormatIsDemoted(t, printFloat);
    GluedOperatorMoves(Demote(LexAll(t).value, printFloat), None, None, 0, printFloat);
    if LexAll(once).Some? {
      LexedDisplays(once, printFloat);
      FormatIsDemoted(once, printFloat);
      LexedWell(once);
      DemotedIsShown(LexAll(once).value, None, None, 0, printFloat);
    }
  }

  lemma LexedDisplays(t: string, printFloat: string -> string)
    requires LexAll(t).Some? && Displays(printFloat)
    ensures DisplaysFloats(LexAll(t).value, printFloat)
  {
    hide LexAll, IsDisplayed, AllPieces, IsFloat;
    LexedWell(t);
    var x := LexAll(t).value;
    forall i | 0 <= i < |x.items| && x.items[i].kind.Float?
      ensures IsDisplayed(printFloat(x.items[i].kind.text), printFloat)
    {
      assert Shape(x.items[i].kind, x.items[i].text);
    }
  }

  // ----- inputs at which the laws fail -----

  /** A source that is one float literal, displayed as the integer `n`: it is read as that integer, or not at all. */
  lemma FloatMayBecomeInt(s: string, n: nat, printFloat: string -> string)
    requires IsFloat(s) && printFloat(s) == Decimal(n)
    ensures LexAll(s) == Some(Lexed([Item([], Float(s), s)], []))
    ensures LexAll(Format(s, printFloat).value)
      == if n <= MAX_INT64 then Some(Lexed([Item([], Int(n), Decimal(n))], [White('\n')])) else None
  {
    hide LexToken, LexAll, IsFloat, Decimal, NoTrivia, Stops, Written;
    ReadEnds();
    WhiteStops(Float(s), "");
    ReadFirst([], Float(s), s, "");
    assert Flatten([]) + (s + "") == s;
    var x := Lexed([Item([], Float(s), s)], []);
    assert x.items + [] == x.items;
    DigitsAreVisible(n);
    FormatIsShown(s, printFloat);
    ShownUnfolds(x, None, 0, printFloat);
    EndIsNewline(Float(s), [], printFloat);
    hide Shown, Arrange, Separator, Format;
    NothingFirst(Float(s));
    assert Rest(x) == Lexed([], []);
    assert Flatten([]) + (Decimal(n) + "\n") == Decimal(n) + "\n";
    WhiteStops(Int(n), "\n");
    if n <= MAX_INT64 {
      ReadFirst([], Int(n), "", "\n");
      assert [Item([], Int(n), Decimal(n))] + [] == [Item([], Int(n), Decimal(n))];
    } else {
      BigIntIsRefused(Int(n), "", "\n", printFloat);
      NothingIsGap();
      ReadItem([], Decimal(n) + "\n");
    }
  }

  lemma DigitsAreVisible(n: nat)
    ensures EndsVisibly(Decimal(n))
  {
    RenderEndsVisibly(Int(n), "", t => t);
  }

  /** One token, written as it stands in the source, and what comes after it. */
  lemma ReadFirst(gap: seq<Piece>, k: TokenKind, text: string, rest: string)
    requires IsGap(gap, false) && Shape(k, text) && Fits(k) && Stops(k, rest) && LexAll(rest).Some?
    ensures var s := Render(k, text, t => t);
      LexAll(Flatten(gap) + (s + rest)) == Some(Lexed([Item(gap, k, s)] + LexAll(rest).value.items, LexAll(rest).value.tail))
  {
    hide LexToken, LexAll, NoTrivia, Stops, Shape, Render, IsGap, Flatten, Fits;
    PrintsAsWritten(k, text);
    var s := Render(k, text, t => t);
    TokenIsRead(k, text, rest, t => t);
    RenderBegins(k, text, t => t);
    ReadItem(gap, s + rest);
    assert (s + rest)[|s|..] == rest && (s + rest)[..|s|] == s;
    ItemThenIs(gap, k, s + rest, |s|);
  }

  lemma PrintsAsWritten(k: TokenKind, text: string)
    requires Shape(k, text)
    ensures Prints(k, t => t) && Reprinted(k, t => t) == k
  {
    hide IsFloat, IsHtml, IsWord, KeywordFromStr;
  }

  lemma ReadEnds()
    ensures LexAll("") == Some(Lexed([], [])) && LexAll("\n") == Some(Lexed([], [White('\n')]))
  {
    assert NoTrivia("");
    NewlineText();
    ClosingIsRead(None, 0, []);
    assert Closing(None, 0, []) == [White('\n')];
  }

  lemma NewlineText()
    ensures Flatten([White('\n')]) == "\n" && Flatten([White(' ')]) == " " && Flatten([]) == "" && IsGap([White(' ')], false)
  {
    assert [White('\n')][1..] == [] && [White(' ')][1..] == [];
  }

  lemma NothingFirst(k: TokenKind)
    ensures Separator(None, 0, [], k) == []
  {}

  lemma EndIsNewline(k: TokenKind, tail: seq<Piece>, printFloat: string -> string)
    requires CommentsOf(tail, false) == []
    ensures Shown(Lexed([], tail), Some(k), 0, printFloat) == "\n"
  {
    NewlineText();
    assert Closing(Some(k), 0, tail) == [White('\n')];
  }

  lemma NothingIsGap()
    ensures IsGap([], false)
  {}

  const NAME := Item([], Ident("a"), "a")

  /** An item that is a symbol, after a space or after nothing. */
  function SymItem(s: Symbol, spaced: bool): Item { Item(if spaced then [White(' ')] else [], Sym(s), SymbolText(s)) }

  lemma NameIsRead(rest: string)
    requires LexAll(rest).Some? && Stops(NAME.kind, rest)
    ensures LexAll("a" + rest) == Some(Lexed([NAME] + LexAll(rest).value.items, LexAll(rest).value.tail))
  {
    hide LexAll, Stops;
    NothingIsGap();
    assert Shape(NAME.kind, "a");
    ReadFirst([], NAME.kind, "a", rest);
    assert Flatten([]) + ("a" + rest) == "a" + rest;
  }

  lemma SymIsRead(s: Symbol, spaced: bool, rest: string)
    requires LexAll(rest).Some? && Stops(Sym(s), rest)
    ensures LexAll((if spaced then " " else "") + SymbolText(s) + rest)
      == Some(Lexed([SymItem(s, spaced)] + LexAll(rest).value.items, LexAll(rest).value.tail))
  {
    hide LexAll, Stops;
    NothingIsGap();
    NewlineText();
    ReadFirst(SymItem(s, spaced).gap, Sym(s), "", rest);
    assert (if spaced then " " else "") + (SymbolText(s) + rest) == (if spaced then " " else "") + SymbolText(s) + rest;
  }

  /** One item as it is printed, at level zero. */
  lemma ShownOne(x: Lexed, prev: Option<TokenKind>, lead: string, printFloat: string -> string)
    requires x.items != [] && (x.items[0] == NAME || x.items[0].kind.Sym?) && NextIndent(x.items[0].kind, 0) == 0
    requires Flatten(Separator(prev, 0, x.items[0].gap, x.items[0].kind)) == lead
    ensures Shown(x, prev, 0, printFloat)
      == lead + (Render(x.items[0].kind, "", printFloat) + Shown(Rest(x), Some(x.items[0].kind), 0, printFloat))
  {
    hide Separator, Shown, Arrange, NextIndent;
    ShownUnfolds(x, prev, 0, printFloat);
  }

  /** Two question marks, printed without a space, are read as one operator, which is then printed with a space. */
  lemma GluedMayChange(printFloat: string -> string)
    ensures Format("a ? ?", printFloat) == Some("a??\n") && Format("a??\n", printFloat) == Some("a ??\n")
  {
    QuestionsAreRead();
    QuestionsAreShown(printFloat);
    OperatorIsShown(printFloat);
    hide LexAll, Shown, Format;
    FormatIsShown("a ? ?", printFloat);
    FormatIsShown("a??\n", printFloat);
  }

  lemma QuestionsAreRead()
    ensures LexAll("a ? ?") == Some(Lexed([NAME, SymItem(Question, true), SymItem(Question, true)], []))
    ensures LexAll("a??\n") == Some(Lexed([NAME, SymItem(QuestionQuestion, false)], [White('\n')]))
  {
    hide LexAll;
    ReadEnds();
    SymIsRead(Question, true, "");
    assert " " + "?" + "" == " ?";
    SymIsRead(Question, true, " ?");
    assert " " + "?" + " ?" == " ? ?";
    NameIsRead(" ? ?");
    assert "a" + " ? ?" == "a ? ?";
    assert [NAME] + ([SymItem(Question, true)] + ([SymItem(Question, true)] + [])) == [NAME, SymItem(Question, true), SymItem(Question, true)];
    SymIsRead(QuestionQuestion, false, "\n");
    assert "" + "??" + "\n" == "??\n";
    NameIsRead("??\n");
    assert "a" + "??\n" == "a??\n";
    assert [NAME] + ([SymItem(QuestionQuestion, false)] + []) == [NAME, SymItem(QuestionQuestion, false)];
  }

  lemma QuestionsAreShown(printFloat: string -> string)
    ensures Shown(Lexed([NAME, SymItem(Question, true), SymItem(Question, true)], []), None, 0, printFloat) == "a??\n"
  {
    hide Shown, Separator, CommentsOf, Flatten;
    var q := SymItem(Question, true);
    QuestionSeparators();
    OneSpaceHasNoComments();
    NewlineText();
    ShownOne(Lexed([NAME, q, q], []), None, "", printFloat);
    assert Rest(Lexed([NAME, q, q], [])) == Lexed([q, q], []) && Rest(Lexed([q, q], [])) == Lexed([q], []) && Rest(Lexed([q], [])) == Lexed([], []);
    ShownOne(Lexed([q, q], []), Some(NAME.kind), "", printFloat);
    ShownOne(Lexed([q], []), Some(q.kind), "", printFloat);
    EndIsNewline(q.kind, [], printFloat);
    assert "a" + ("?" + ("?" + "\n")) == "a??\n";
  }

  lemma OperatorIsShown(printFloat: string -> string)
    ensures Shown(Lexed([NAME, SymItem(QuestionQuestion, false)], [White('\n')]), None, 0, printFloat) == "a ??\n"
  {
    hide Shown, Separator, CommentsOf, Flatten;
    QuestionSeparators();
    OneSpaceHasNoComments();
    NewlineText();
    var qq := SymItem(QuestionQuestion, false);
    ShownOne(Lexed([NAME, qq], [White('\n')]), None, "", printFloat);
    assert Rest(Lexed([NAME, qq], [White('\n')])) == Lexed([qq], [White('\n')]) && Rest(Lexed([qq], [White('\n')])) == Lexed([], [White('\n')]);
    ShownOne(Lexed([qq], [White('\n')]), Some(NAME.kind), " ", printFloat);
    EndIsNewline(qq.kind, [White('\n')], printFloat);
    assert "a" + (" " + ("??" + "\n")) == "a ??\n";
  }

  lemma QuestionSeparators()
    ensures var q := Sym(Question);
      && Separator(None, 0, [], NAME.kind) == [] && Separator(Some(NAME.kind), 0, [White(' ')], q) == []
      && Separator(Some(q), 0, [White(' ')], q) == []
      && Separator(Some(NAME.kind), 0, [], Sym(QuestionQuestion)) == [White(' ')]
  {
    OneSpaceHasNoComments();
  }

  lemma OneSpaceHasNoComments()
    ensures CommentsOf([White(' ')], false) == [] && CommentsOf([White('\n')], false) == [] && CommentsOf([], false) == []
  {
    assert [White(' ')][1..] == [] && [White('\n')][1..] == [];
  }
}
