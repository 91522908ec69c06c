/** What the formatter prints between tokens is read as trivia again, with the same comments. */
module Gaps {
  import opened Chars
  import opened Layout
  import opened Lexing
  import opened Locality
  import opened Tokens
  import opened Wrappers

  predicate AllPieces(ps: seq<Piece>) { forall i | 0 <= i < |ps| :: IsPiece(ps[i]) }

  lemma {:induction false} GapIsPieces(ps: seq<Piece>, last: bool)
    requires IsGap(ps, last)
    ensures AllPieces(ps)
  {
    if ps != [] {
      GapIsPieces(ps[1..], last);
      assert forall i | 0 < i < |ps| :: ps[i] == ps[1..][i - 1];
    }
  }

  // ----- separators are gaps -----

  lemma {:induction false} GapsJoin(a: seq<Piece>, b: seq<Piece>, last: bool)
    requires IsGap(a, false) && IsGap(b, last)
    ensures IsGap(a + b, last)
  {
    hide IsPiece;
    if a == [] {
      assert a + b == b;
    } else {
      assert (a + b)[1..] == a[1..] + b;
      GapsJoin(a[1..], b, last);
    }
  }

  lemma {:induction false} IndentIsGap(n: nat)
    ensures IsGap(Indent(n), false)
  {
    if n > 0 {
      IndentIsGap(n - 1);
      assert Indent(n)[1..] == [White(' ')] + Indent(n - 1);
      assert Indent(n)[1..][1..] == Indent(n - 1);
    }
  }

  lemma {:induction false} TrimKeepsSlashes(s: string)
    requires |s| >= 2 && s[0] == s[1] == '/' && '\n' !in s
    ensures |TrimEnd(s)| >= 2 && TrimEnd(s)[0] == TrimEnd(s)[1] == '/' && '\n' !in TrimEnd(s)
  {
    if IsWhitespace(s[|s| - 1]) {
      TrimKeepsSlashes(s[..|s| - 1]);
    }
  }

  lemma {:induction false} CommentsAreGap(cs: seq<Comment>, atStart: bool, indent: nat)
    requires forall i | 0 <= i < |cs| :: IsPiece(cs[i].piece)
    ensures IsGap(CommentPieces(cs, atStart, indent), false)
  {
    if cs != [] {
      CommentsAreGap(cs[1..], true, indent);
      var lead := CommentLead(cs[0].ownLine, atStart, indent);
      var rest := CommentPieces(cs[1..], true, indent);
      CommentLeadIsGap(cs[0].ownLine, atStart, indent);
      CommentIsGap(cs[0].piece);
      hide IsGap, CommentLead, IsPiece;
      GapsJoin(lead, [cs[0].piece, White('\n')], false);
      GapsJoin(lead + [cs[0].piece, White('\n')], rest, false);
    }
  }

  lemma CommentIsGap(p: Piece)
    requires IsPiece(p)
    ensures IsGap([p, White('\n')], false)
  {
    assert [p, White('\n')][1..] == [White('\n')] && [White('\n')][1..] == [];
  }

  lemma CommentLeadIsGap(ownLine: bool, atStart: bool, indent: nat)
    ensures IsGap(CommentLead(ownLine, atStart, indent), false)
  {
    IndentIsGap(indent);
    GapsJoin([White('\n')], Indent(indent), false);
  }

  lemma {:induction false} CommentsArePieces(gap: seq<Piece>, newline: bool)
    requires AllPieces(gap)
    ensures forall i | 0 <= i < |CommentsOf(gap, newline)| :: IsPiece(CommentsOf(gap, newline)[i].piece)
  {
    if gap != [] {
      if gap[0].White? {
        CommentsArePieces(gap[1..], newline || gap[0].c == '\n');
      } else {
        CommentsArePieces(gap[1..], false);
        if gap[0].Line? {
          TrimKeepsSlashes(gap[0].text);
        }
      }
    }
  }

  lemma AfterIsGap(prev: Option<TokenKind>, indent: nat)
    ensures IsGap(After(prev, indent), false)
  {}

  lemma LeadIsGap(prev: Option<TokenKind>, atStart: bool, indent: nat, k: TokenKind)
    ensures IsGap(Lead(prev, atStart, indent, k), false)
  {
    hide NeedsSpaceBefore, StartsTopLevelDecl;
    IndentIsGap(indent);
    GapsJoin(LineBreak(atStart, indent, k), Indent(indent), false);
  }

  lemma SeparatorIsGap(prev: Option<TokenKind>, indent: nat, gap: seq<Piece>, k: TokenKind)
    requires AllPieces(gap)
    ensures IsGap(Separator(prev, indent, gap, k), false)
  {
    hide IsGap, After, CommentPieces, Lead, AllPieces, IsPiece;
    var cs := CommentsOf(gap, false);
    CommentsArePieces(gap, false);
    CommentsAreGap(cs, AtStart(prev), indent);
    AfterIsGap(prev, indent);
    LeadIsGap(prev, AtStart(prev) || cs != [], OwnIndent(k, indent), k);
    GapsJoin(After(prev, indent), CommentPieces(cs, AtStart(prev), indent), false);
    GapsJoin(After(prev, indent) + CommentPieces(cs, AtStart(prev), indent),
             Lead(prev, AtStart(prev) || cs != [], OwnIndent(k, indent), k), false);
  }

  lemma ClosingIsGap(prev: Option<TokenKind>, indent: nat, gap: seq<Piece>)
    requires AllPieces(gap)
    ensures IsGap(Closing(prev, indent, gap), true)
  {
    hide After, CommentPieces, AllPieces;
    var cs := CommentsOf(gap, false);
    CommentsArePieces(gap, false);
    CommentsAreGap(cs, AtStart(prev), indent);
    AfterIsGap(prev, indent);
    if cs == [] {
      assert [White('\n')][1..] == [];
    } else {
      hide IsGap;
      GapsJoin(After(prev, indent), CommentPieces(cs, AtStart(prev), indent), false);
      GapMayEnd(After(prev, indent) + CommentPieces(cs, AtStart(prev), indent));
    }
  }

  /** After a token, what is printed next begins with white space if it is anything at all. */
  predicate BeginsWhite(ps: seq<Piece>) { ps != [] ==> ps[0].White? }

  lemma LeadBegins(prev: TokenKind, indent: nat, k: TokenKind)
    ensures var lead := Lead(Some(prev), false, indent, k);
      BeginsWhite(lead) && (lead == [] <==> LineBreak(false, indent, k) == [] && !NeedsSpaceBefore(prev, k))
  {
    hide NeedsSpaceBefore;
    var broken := LineBreak(false, indent, k);
    if broken != [] {
      assert Lead(Some(prev), false, indent, k)[0] == broken[0];
    }
  }

  lemma CommentsBegin(cs: seq<Comment>, indent: nat)
    ensures BeginsWhite(CommentPieces(cs, false, indent)) && (CommentPieces(cs, false, indent) == [] <==> cs == [])
  {
    if cs != [] {
      var lead := CommentLead(cs[0].ownLine, false, indent);
      assert CommentPieces(cs, false, indent)[0] == lead[0];
    }
  }

  lemma AfterBegins(prev: TokenKind, indent: nat)
    ensures BeginsWhite(After(Some(prev), indent)) && (After(Some(prev), indent) == [] <==> !AtStart(Some(prev)))
  {}

  lemma SeparatorBegins(prev: TokenKind, indent: nat, gap: seq<Piece>, k: TokenKind)
    ensures BeginsWhite(Separator(Some(prev), indent, gap, k))
    ensures Separator(Some(prev), indent, gap, k) == [] <==> Tight(prev, indent, gap, k)
  {
    hide NeedsSpaceBefore, StartsTopLevelDecl, Lead, CommentPieces, After;
    var cs := CommentsOf(gap, false);
    var atStart := AtStart(Some(prev));
    var a, b := After(Some(prev), indent), CommentPieces(cs, atStart, indent);
    var c := Lead(Some(prev), atStart || cs != [], OwnIndent(k, indent), k);
    AfterBegins(prev, indent);
    if !atStart {
      CommentsBegin(cs, indent);
      LeadBegins(prev, OwnIndent(k, indent), k);
    }
    assert a + b + c == a + (b + c);
    assert a != [] ==> (a + (b + c))[0] == a[0];
    assert a == [] ==> a + (b + c) == b + c;
    assert b != [] ==> (b + c)[0] == b[0];
    assert b == [] ==> b + c == c;
  }

  lemma ClosingBegins(prev: TokenKind, indent: nat, gap: seq<Piece>)
    ensures BeginsWhite(Closing(Some(prev), indent, gap)) && Closing(Some(prev), indent, gap) != []
  {}

  /** What stands between a token and the text `s` after it: only what the lexer skips. */
  lemma GapThenText(gap: seq<Piece>, s: string)
    requires BeginsWhite(gap) && AllPieces(gap)
    ensures gap == [] ==> Flatten(gap) + s == s
    ensures gap != [] ==> Flatten(gap) + s != "" && IsWhitespace((Flatten(gap) + s)[0])
  {
    if gap == [] {
      assert Flatten(gap) + s == s;
    } else {
      assert (Flatten(gap) + s)[0] == gap[0].c;
    }
  }

  // ----- comments -----

  function Pieces(cs: seq<Comment>): seq<Piece> { if cs == [] then [] else [cs[0].piece] + Pieces(cs[1..]) }

  /** The comments of a gap as they are printed, which is with trailing white space trimmed from line comments. */
  function Comments(gap: seq<Piece>): seq<Piece> { Pieces(CommentsOf(gap, false)) }

  predicate AllWhite(ps: seq<Piece>) { forall i | 0 <= i < |ps| :: ps[i].White? }

  predicate HasNewline(ps: seq<Piece>) { White('\n') in ps }

  lemma {:induction false} TrimTwice(s: string)
    ensures TrimEnd(TrimEnd(s)) == TrimEnd(s)
  {
    if s != "" && IsWhitespace(s[|s| - 1]) {
      TrimTwice(s[..|s| - 1]);
    }
  }

  lemma {:induction false} WhiteFirst(ws: seq<Piece>, ps: seq<Piece>, newline: bool)
    requires AllWhite(ws)
    ensures CommentsOf(ws + ps, newline) == CommentsOf(ps, newline || HasNewline(ws))
  {
    if ws == [] {
      assert ws + ps == ps;
    } else {
      assert (ws + ps)[1..] == ws[1..] + ps;
      assert ws == [ws[0]] + ws[1..];
      WhiteFirst(ws[1..], ps, newline || ws[0].c == '\n');
    }
  }

  /** Comments that were printed once: their text does not change any more. */
  predicate ArePrinted(cs: seq<Comment>) { forall i | 0 <= i < |cs| :: !cs[i].piece.White? && Printed(cs[i].piece) == cs[i].piece }

  lemma {:induction false} CommentsOfArePrinted(gap: seq<Piece>, newline: bool)
    ensures ArePrinted(CommentsOf(gap, newline))
  {
    if gap != [] {
      if gap[0].White? {
        CommentsOfArePrinted(gap[1..], newline || gap[0].c == '\n');
      } else {
        CommentsOfArePrinted(gap[1..], false);
        if gap[0].Line? {
          TrimTwice(gap[0].text);
        }
      }
    }
  }

  /** The same comments; where a line is under way, the first one stands on its own line in both or in neither. */
  predicate SameComments(cs: seq<Comment>, ds: seq<Comment>, atStart: bool) {
    Pieces(cs) == Pieces(ds) && (!atStart && cs != [] && ds != [] ==> cs[0].ownLine == ds[0].ownLine)
  }

  lemma {:induction false} SamePrinted(cs: seq<Comment>, ds: seq<Comment>, atStart: bool, indent: nat)
    requires SameComments(cs, ds, atStart)
    ensures CommentPieces(cs, atStart, indent) == CommentPieces(ds, atStart, indent)
    ensures cs == [] <==> ds == []
  {
    assert (cs == [] <==> Pieces(cs) == []) && (ds == [] <==> Pieces(ds) == []);
    if cs != [] {
      assert Pieces(cs)[0] == Pieces(ds)[0] && Pieces(cs)[1..] == Pieces(ds)[1..];
      SamePrinted(cs[1..], ds[1..], true, indent);
    }
  }

  lemma {:induction false} IndentIsWhite(n: nat)
    ensures AllWhite(Indent(n)) && !HasNewline(Indent(n))
  {
    if n > 0 {
      IndentIsWhite(n - 1);
    }
  }

  lemma CommentLeadIsWhite(ownLine: bool, atStart: bool, indent: nat)
    ensures AllWhite(CommentLead(ownLine, atStart, indent))
    ensures HasNewline(CommentLead(ownLine, atStart, indent)) <==> !atStart && ownLine
  {
    IndentIsWhite(indent);
  }

  /** Printed comments are found again, with white space after them. */
  lemma {:induction false} CommentsAreFound(cs: seq<Comment>, atStart: bool, indent: nat, after: seq<Piece>, newline: bool)
    requires ArePrinted(cs) && AllWhite(after) && (newline ==> atStart)
    ensures SameComments(cs, CommentsOf(CommentPieces(cs, atStart, indent) + after, newline), atStart)
  {
    if cs == [] {
      assert CommentPieces(cs, atStart, indent) + after == after + [];
      WhiteFirst(after, [], newline);
    } else {
      var lead := CommentLead(cs[0].ownLine, atStart, indent);
      var rest := CommentPieces(cs[1..], true, indent) + after;
      var ps := [cs[0].piece, White('\n')] + rest;
      assert CommentPieces(cs, atStart, indent) + after == lead + ps;
      CommentLeadIsWhite(cs[0].ownLine, atStart, indent);
      WhiteFirst(lead, ps, newline);
      CommentIsFound(cs[0].piece, rest, newline || HasNewline(lead));
      CommentsAreFound(cs[1..], true, indent, after, true);
      hide CommentsOf, CommentPieces, CommentLead;
      SameCommentFirst(cs, Comment(cs[0].piece, newline || HasNewline(lead)), CommentsOf(rest, true), atStart);
    }
  }

  lemma SameCommentFirst(cs: seq<Comment>, d: Comment, ds: seq<Comment>, atStart: bool)
    requires cs != [] && cs[0].piece == d.piece && Pieces(cs[1..]) == Pieces(ds)
    requires !atStart ==> cs[0].ownLine == d.ownLine
    ensures SameComments(cs, [d] + ds, atStart)
  {
    assert ([d] + ds)[1..] == ds;
  }

  lemma CommentIsFound(p: Piece, rest: seq<Piece>, newline: bool)
    requires !p.White? && Printed(p) == p
    ensures CommentsOf([p, White('\n')] + rest, newline) == [Comment(p, newline)] + CommentsOf(rest, true)
  {
    var ps := [p, White('\n')] + rest;
    assert ps[1..] == [White('\n')] + rest && ps[1..][1..] == rest;
  }

  lemma LeadIsWhite(prev: Option<TokenKind>, atStart: bool, indent: nat, k: TokenKind)
    ensures AllWhite(Lead(prev, atStart, indent, k))
  {
    hide NeedsSpaceBefore, StartsTopLevelDecl;
    IndentIsWhite(indent);
  }

  lemma SeparatorIsFixed(prev: Option<TokenKind>, indent: nat, gap: seq<Piece>, k: TokenKind)
    ensures var once := Separator(prev, indent, gap, k);
      Separator(prev, indent, once, k) == once && Comments(once) == Comments(gap)
  {
    hide Lead, CommentPieces;
    var cs := CommentsOf(gap, false);
    var lead := Lead(prev, AtStart(prev) || cs != [], OwnIndent(k, indent), k);
    LeadIsWhite(prev, AtStart(prev) || cs != [], OwnIndent(k, indent), k);
    GapIsFixed(prev, indent, gap, lead);
  }

  lemma GapIsFixed(prev: Option<TokenKind>, indent: nat, gap: seq<Piece>, after: seq<Piece>)
    requires AllWhite(after)
    ensures var cs := CommentsOf(gap, false);
      var once := After(prev, indent) + CommentPieces(cs, AtStart(prev), indent) + after;
      var ds := CommentsOf(once, false);
      && CommentPieces(ds, AtStart(prev), indent) == CommentPieces(cs, AtStart(prev), indent)
      && Pieces(ds) == Pieces(cs) && (ds == [] <==> cs == [])
  {
    hide CommentPieces;
    var cs := CommentsOf(gap, false);
    var atStart := AtStart(prev);
    var first := After(prev, indent);
    var ps := CommentPieces(cs, atStart, indent) + after;
    CommentsOfArePrinted(gap, false);
    WhiteFirst(first, ps, false);
    CommentsAreFound(cs, atStart, indent, after, HasNewline(first));
    assert first + CommentPieces(cs, atStart, indent) + after == first + ps;
    SamePrinted(cs, CommentsOf(first + ps, false), atStart, indent);
  }

  lemma ClosingIsFixed(prev: Option<TokenKind>, indent: nat, gap: seq<Piece>)
    ensures var once := Closing(prev, indent, gap);
      Closing(prev, indent, once) == once && Comments(once) == Comments(gap)
  {
    hide CommentPieces, After;
    var cs := CommentsOf(gap, false);
    if cs == [] {
      WhiteFirst([White('\n')], [], false);
      assert [White('\n')] + [] == [White('\n')];
    } else {
      GapIsFixed(prev, indent, gap, []);
      var once := After(prev, indent) + CommentPieces(cs, AtStart(prev), indent);
      assert once + [] == once;
    }
  }
}
