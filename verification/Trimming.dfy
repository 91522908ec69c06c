/** The text the formatter writes out, trimmed at its end, is the arranged source. */
module Trimming {
  import opened Chars
  import opened Gaps
  import opened Layout
  import opened Lexing
  import opened Locality
  import opened Rendering
  import opened Spans
  import opened Tokens
  import opened Wrappers

  function Rest(x: Lexed): Lexed
    requires x.items != []
  {
    Lexed(x.items[1..], x.tail)
  }

  function Shown(x: Lexed, prev: Option<TokenKind>, indent: nat, printFloat: string -> string): string {
    var y := Arrange(x, prev, indent, printFloat);
    TextOf(y.items, y.tail)
  }

  lemma ShownUnfolds(x: Lexed, prev: Option<TokenKind>, indent: nat, printFloat: string -> string)
    requires x.items != []
    ensures var item := x.items[0];
      var y := Arrange(x, prev, indent, printFloat);
      var z := Arrange(Rest(x), Some(item.kind), NextIndent(item.kind, indent), printFloat);
      var s := Render(item.kind, item.text, printFloat);
      && y == Lexed([Item(Separator(prev, indent, item.gap, item.kind), Reprinted(item.kind, printFloat), s)] + z.items, z.tail)
      && Shown(x, prev, indent, printFloat)
         == Flatten(Separator(prev, indent, item.gap, item.kind))
            + (s + Shown(Rest(x), Some(item.kind), NextIndent(item.kind, indent), printFloat))
  {
    hide Separator, Render, Flatten;
    var y := Arrange(x, prev, indent, printFloat);
    var z := Arrange(Rest(x), Some(x.items[0].kind), NextIndent(x.items[0].kind, indent), printFloat);
    assert y.items[1..] == z.items;
  }

  // ----- trimming -----

  lemma {:induction false} TrimAfter(s: string, t: string)
    requires EndsVisibly(s)
    ensures TrimEnd(s + t) == s + TrimEnd(t)
  {
    if t == "" {
      assert s + t == s;
    } else {
      assert (s + t)[|s + t| - 1] == t[|t| - 1];
      if IsWhitespace(t[|t| - 1]) {
        assert (s + t)[..|s + t| - 1] == s + t[..|t| - 1];
        TrimAfter(s, t[..|t| - 1]);
      }
    }
  }

  lemma {:induction false} FlattenJoins(a: seq<Piece>, b: seq<Piece>)
    ensures Flatten(a + b) == Flatten(a) + Flatten(b)
  {
    if a == [] {
      assert a + b == b;
    } else {
      assert (a + b)[1..] == a[1..] + b;
      FlattenJoins(a[1..], b);
    }
  }

  lemma {:induction false} TrimmedVisibly(s: string)
    ensures TrimEnd(s) == "" || EndsVisibly(TrimEnd(s))
  {
    if s != "" && IsWhitespace(s[|s| - 1]) {
      TrimmedVisibly(s[..|s| - 1]);
    }
  }

  lemma CommentsUnfold(cs: seq<Comment>, atStart: bool, indent: nat)
    requires cs != []
    ensures Flatten(CommentPieces(cs, atStart, indent))
      == Flatten(CommentLead(cs[0].ownLine, atStart, indent)) + PieceText(cs[0].piece) + "\n" + Flatten(CommentPieces(cs[1..], true, indent))
  {
    hide CommentLead, Flatten;
    var lead := CommentLead(cs[0].ownLine, atStart, indent);
    var pair := [cs[0].piece, White('\n')];
    FlattenJoins(lead + pair, CommentPieces(cs[1..], true, indent));
    FlattenJoins(lead, pair);
    PairText(cs[0].piece);
  }

  lemma PairText(p: Piece)
    ensures Flatten([p, White('\n')]) == PieceText(p) + "\n"
  {
    assert [p, White('\n')][1..] == [White('\n')] && [White('\n')][1..] == [];
  }

  /** Printed comments end visibly, and then in one newline. */
  lemma {:induction false} CommentsEnd(cs: seq<Comment>, atStart: bool, indent: nat) returns (s: string)
    requires cs != [] && ArePrinted(cs) && forall i | 0 <= i < |cs| :: IsPiece(cs[i].piece)
    ensures EndsVisibly(s) && Flatten(CommentPieces(cs, atStart, indent)) == s + "\n"
  {
    hide Flatten, CommentLead, IsPiece;
    var lead := Flatten(CommentLead(cs[0].ownLine, atStart, indent));
    var text := PieceText(cs[0].piece);
    CommentsUnfold(cs, atStart, indent);
    CommentText(cs[0].piece);
    if |cs| == 1 {
      NothingFlat(indent);
      hide CommentPieces;
      s := lead + text;
      assert s[|s| - 1] == text[|text| - 1];
      assert s + "\n" + "" == s + "\n";
    } else {
      hide CommentPieces;
      var t := CommentsEnd(cs[1..], true, indent);
      s := lead + text + "\n" + t;
      assert s[|s| - 1] == t[|t| - 1];
      assert lead + text + "\n" + (t + "\n") == s + "\n";
    }
  }

  lemma NothingFlat(indent: nat)
    ensures Flatten(CommentPieces([], true, indent)) == ""
  {}

  lemma CommentText(p: Piece)
    requires IsPiece(p) && !p.White? && Printed(p) == p
    ensures EndsVisibly(PieceText(p))
  {
    if p.Line? {
      TrimmedVisibly(p.text);
    } else {
      BlockEndsInSlash(p.text[2..]);
      assert p.text[2..][|p.text| - 3] == p.text[|p.text| - 1];
    }
  }

  lemma {:induction false} BlockEndsInSlash(t: string)
    requires BlockEnd(t).Some?
    ensures t[BlockEnd(t).value - 1] == '/'
  {
    if !(t[0] == '*' && t[1] == '/') {
      BlockEndsInSlash(t[1..]);
    }
  }

  lemma AfterTrims(prev: Option<TokenKind>, indent: nat)
    ensures TrimEnd(Flatten(After(prev, indent))) == ""
  {
    var ps := After(prev, indent);
    if ps != [] {
      assert ps == [White('\n')] || ps == [White('\n'), White('\n')];
      assert [White('\n')][1..] == [] && [White('\n'), White('\n')][1..] == [White('\n')];
      assert "\n\n"[..1] == "\n" && "\n"[..0] == "";
    }
  }

  /** Every token is printed visibly to its end. */
  predicate PrintsVisibly(x: Lexed, printFloat: string -> string) {
    forall i | 0 <= i < |x.items| :: EndsVisibly(Render(x.items[i].kind, x.items[i].text, printFloat))
  }

  lemma WrittenUnfolds(x: Lexed, prev: Option<TokenKind>, indent: nat, printFloat: string -> string)
    requires x.items != []
    ensures var item := x.items[0];
      var level := NextIndent(item.kind, indent);
      Flatten(After(prev, indent)) + Written(x, prev, indent, printFloat)
      == Flatten(Separator(prev, indent, item.gap, item.kind)) + Render(item.kind, item.text, printFloat)
         + (Flatten(After(Some(item.kind), level)) + Written(Rest(x), Some(item.kind), level, printFloat))
  {
    hide Flatten, After, CommentPieces, CommentsOf, Render, Lead, IsWhitespace;
    var item := x.items[0];
    var cs := CommentsOf(item.gap, false);
    var comments := CommentPieces(cs, AtStart(prev), indent);
    FlattenJoins(After(prev, indent) + comments, Lead(prev, AtStart(prev) || cs != [], OwnIndent(item.kind, indent), item.kind));
    FlattenJoins(After(prev, indent), comments);
  }

  lemma {:induction false} TrimmedIsShown(x: Lexed, prev: Option<TokenKind>, indent: nat, printFloat: string -> string)
    requires AllPieces(x.tail) && PrintsVisibly(x, printFloat)
    ensures TrimEnd(Flatten(After(prev, indent)) + Written(x, prev, indent, printFloat)) + "\n" == Shown(x, prev, indent, printFloat)
    decreases |x.items|
  {
    hide TrimEnd, Flatten, After, CommentPieces, CommentsOf, Render, Lead, IsWhitespace, Separator, Closing;
    if x.items == [] {
      TrimmedTail(prev, indent, x.tail);
    } else {
      var item := x.items[0];
      var level := NextIndent(item.kind, indent);
      var s := Render(item.kind, item.text, printFloat);
      ShownUnfolds(x, prev, indent, printFloat);
      WrittenUnfolds(x, prev, indent, printFloat);
      TrimmedIsShown(Rest(x), Some(item.kind), level, printFloat);
      hide Written, Shown;
      var next := Flatten(After(Some(item.kind), level)) + Written(Rest(x), Some(item.kind), level, printFloat);
      var gap := Flatten(Separator(prev, indent, item.gap, item.kind));
      assert (gap + s)[|gap + s| - 1] == s[|s| - 1];
      TrimAfter(gap + s, next);
      assert (gap + s) + TrimEnd(next) + "\n" == gap + (s + (TrimEnd(next) + "\n"));
    }
  }

  lemma TrimmedTail(prev: Option<TokenKind>, indent: nat, tail: seq<Piece>)
    requires AllPieces(tail)
    ensures TrimEnd(Flatten(After(prev, indent)) + Flatten(CommentPieces(CommentsOf(tail, false), AtStart(prev), indent))) + "\n"
      == Flatten(Closing(prev, indent, tail))
  {
    hide After, TrimEnd, CommentsOf, IsPiece;
    var cs := CommentsOf(tail, false);
    var first := Flatten(After(prev, indent));
    if cs == [] {
      assert first + "" == first;
      AfterTrims(prev, indent);
      assert [White('\n')][1..] == [];
    } else {
      CommentsArePieces(tail, false);
      CommentsOfArePrinted(tail, false);
      var s := CommentsEnd(cs, AtStart(prev), indent);
      FlattenJoins(After(prev, indent), CommentPieces(cs, AtStart(prev), indent));
      hide CommentPieces, Flatten;
      assert first + (s + "\n") == (first + s) + "\n";
      assert (first + s)[|first + s| - 1] == s[|s| - 1];
      NewlineTrims();
      TrimAfter(first + s, "\n");
      assert first + s + "" == first + s;
    }
  }

  lemma NewlineTrims()
    ensures TrimEnd("\n") == ""
  {
    assert "\n"[..0] == "";
  }
}
