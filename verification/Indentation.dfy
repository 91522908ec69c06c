/** Where the formatter breaks lines, how far it indents them and where it puts spaces, told by braces and texts alone. */
module Indentation {
  import opened Chars
  import opened Demotion
  import opened Gaps
  import opened Layout
  import opened Lexing
  import opened Spans
  import opened Tokens
  import opened Trimming
  import opened Wrappers

  // ----- depth -----

  function Kinds(items: seq<Item>): (kinds: seq<TokenKind>)
    ensures |kinds| == |items| && forall i | 0 <= i < |items| :: kinds[i] == items[i].kind
  {
    seq(|items|, i requires 0 <= i < |items| => items[i].kind)
  }

  /** How many braces are open after `kinds`, surplus closing ones closing nothing: the most that any end of it opens. */
  ghost predicate IsDepth(kinds: seq<TokenKind>, d: int) {
    && (forall j | 0 <= j <= |kinds| :: Braces(kinds[j..]) <= d)
    && exists j | 0 <= j <= |kinds| :: Braces(kinds[j..]) == d
  }

  lemma {:induction false} BracesJoin(a: seq<TokenKind>, b: seq<TokenKind>)
    ensures Braces(a + b) == Braces(a) + Braces(b)
  {
    assert multiset(a + b) == multiset(a) + multiset(b);
  }

  /** Where closing braces never outnumber opening ones, that is the number of `{` less the number of `}`. */
  lemma BalancedDepth(kinds: seq<TokenKind>, d: int)
    requires forall j | 0 <= j <= |kinds| :: Braces(kinds[..j]) >= 0
    ensures IsDepth(kinds, d) <==> d == Braces(kinds)
  {
    hide Braces;
    forall j | 0 <= j <= |kinds| ensures Braces(kinds[j..]) <= Braces(kinds) {
      assert kinds == kinds[..j] + kinds[j..];
      BracesJoin(kinds[..j], kinds[j..]);
    }
    assert kinds[0..] == kinds;
  }

  lemma OneBrace(k: TokenKind)
    ensures Braces([k]) == (if k == Sym(LBrace) then 1 else if k == Sym(RBrace) then -1 else 0) && Braces([]) == 0
  {
    BracesAdd(k, []);
    assert [k] + [] == [k];
  }

  lemma DepthIsOne(kinds: seq<TokenKind>, d: int, e: int)
    requires IsDepth(kinds, d) && IsDepth(kinds, e)
    ensures d == e && d >= 0
  {
    OneBrace(Eof);
    assert kinds[|kinds|..] == [];
  }

  /** The level the formatter counts is the depth. */
  lemma DepthSteps(kinds: seq<TokenKind>, d: nat, k: TokenKind)
    requires IsDepth(kinds, d)
    ensures IsDepth(kinds + [k], NextIndent(k, d))
    ensures k == Sym(RBrace) ==> OwnIndent(k, d) == NextIndent(k, d)
    ensures k != Sym(RBrace) ==> OwnIndent(k, d) == d
  {
    hide Braces;
    OneBrace(k);
    var longer, next := kinds + [k], NextIndent(k, d);
    assert longer[|longer|..] == [];
    forall j | 0 <= j <= |kinds| ensures Braces(longer[j..]) == Braces(kinds[j..]) + Braces([k]) {
      assert longer[j..] == kinds[j..] + [k];
      BracesJoin(kinds[j..], [k]);
    }
    forall j | 0 <= j <= |longer| ensures Braces(longer[j..]) <= next {}
    var top :| 0 <= top <= |kinds| && Braces(kinds[top..]) == d;
    assert Braces(longer[if next == d + Braces([k]) then top else |longer|..]) == next;
  }

  lemma NoDepth()
    ensures IsDepth([], 0)
  {
    OneBrace(Eof);
    var none: seq<TokenKind> := [];
    assert none[0..] == none;
  }

  // ----- lines -----

  function Spaces(n: nat): (s: string)
    ensures |s| == n && forall i | 0 <= i < n :: s[i] == ' '
  {
    seq(n, _ => ' ')
  }

  /** If a line begins in `text`, its end stands `depth` levels in from where the last one does. */
  ghost predicate EndsIndented(text: string, depth: nat) {
    '\n' in text ==> exists before :: text == before + "\n" + Spaces(2 * depth)
  }

  /** In a gap, what is printed next and each comment that begins a line stand where their depths say. */
  ghost predicate IsIndented(gap: seq<Piece>, inside: nat, own: nat) {
    && EndsIndented(Flatten(gap), own)
    && AllIndented(gap, inside)
  }

  ghost predicate AllIndented(gap: seq<Piece>, inside: nat) {
    forall p | 0 <= p < |gap| && !gap[p].White? :: EndsIndented(Flatten(gap[..p]), inside)
  }

  lemma {:induction false} IndentText(n: nat)
    ensures Flatten(Indent(n)) == Spaces(2 * n)
  {
    if n == 0 {
      assert Spaces(0) == "";
    } else {
      IndentText(n - 1);
      var ps := Indent(n);
      assert ps[1..] == [White(' ')] + Indent(n - 1) && ps[1..][1..] == Indent(n - 1);
      assert Spaces(2 * n) == " " + (" " + Spaces(2 * (n - 1)));
    }
  }

  /** A line is about to begin. */
  predicate BeginsLine(text: string) { '\n' in text ==> text[|text| - 1] == '\n' }

  lemma IndentedLine(text: string, n: nat)
    requires BeginsLine(text)
    ensures EndsIndented(text + Spaces(2 * n), n)
  {
    if '\n' in text + Spaces(2 * n) {
      var i :| 0 <= i < |text + Spaces(2 * n)| && (text + Spaces(2 * n))[i] == '\n';
      assert text[i] == '\n';
      var before := text[..|text| - 1];
      assert text == before + "\n";
    }
  }

  lemma NoLine(text: string, n: nat)
    requires '\n' !in text
    ensures EndsIndented(text, n)
  {}

  lemma LeadIsIndented(text: string, c: Comment, atStart: bool, indent: nat)
    requires if atStart then BeginsLine(text) else text == ""
    ensures EndsIndented(text + Flatten(CommentLead(c.ownLine, atStart, indent)), indent)
  {
    IndentText(indent);
    if atStart {
      IndentedLine(text, indent);
    } else if c.ownLine {
      FlattenJoins([White('\n')], Indent(indent));
      NewlineText();
      IndentedLine("\n", indent);
      assert text + ("\n" + Spaces(2 * indent)) == "\n" + Spaces(2 * indent);
    } else {
      NewlineText();
      assert text + " " == " ";
    }
  }

  lemma NewlineText()
    ensures Flatten([White('\n')]) == "\n" && Flatten([White(' ')]) == " " && Flatten([]) == "" && Flatten([White('\n'), White('\n')]) == "\n\n"
  {
    assert [White('\n')][1..] == [] && [White(' ')][1..] == [] && [White('\n'), White('\n')][1..] == [White('\n')];
    assert "\n" + "\n" == "\n\n";
  }

  /** Each comment of `ps`, written after `before`, stands at level `n`. */
  ghost predicate CommentsIndented(before: seq<Piece>, ps: seq<Piece>, n: nat) {
    forall p | 0 <= p < |ps| && !ps[p].White? :: EndsIndented(Flatten(before + ps[..p]), n)
  }

  lemma CommentsJoin(before: seq<Piece>, a: seq<Piece>, b: seq<Piece>, n: nat)
    requires CommentsIndented(before, a, n) && CommentsIndented(before + a, b, n)
    ensures CommentsIndented(before, a + b, n)
  {
    hide EndsIndented, Flatten;
    forall p | 0 <= p < |a + b| && !(a + b)[p].White? ensures EndsIndented(Flatten(before + (a + b)[..p]), n) {
      if p < |a| {
        assert (a + b)[..p] == a[..p];
      } else {
        assert before + (a + b)[..p] == before + a + b[..p - |a|];
      }
    }
  }

  lemma WhiteIsIndented(before: seq<Piece>, ps: seq<Piece>, n: nat)
    requires AllWhite(ps)
    ensures CommentsIndented(before, ps, n)
  {}

  lemma OneCommentIndented(before: seq<Piece>, c: Piece, n: nat)
    requires EndsIndented(Flatten(before), n)
    ensures CommentsIndented(before, [c, White('\n')], n)
  {
    var ps := [c, White('\n')];
    assert ps[..0] == [] && before + [] == before;
  }

  lemma LineEnds(text: string)
    ensures BeginsLine(text + "\n")
  {}

  lemma {:induction false} CommentsAreIndented(before: seq<Piece>, cs: seq<Comment>, atStart: bool, indent: nat)
    requires ArePrinted(cs) && if atStart then BeginsLine(Flatten(before)) else Flatten(before) == ""
    ensures CommentsIndented(before, CommentPieces(cs, atStart, indent), indent)
    ensures if atStart || cs != [] then BeginsLine(Flatten(before + CommentPieces(cs, atStart, indent)))
      else Flatten(before + CommentPieces(cs, atStart, indent)) == ""
    decreases |cs|
  {
    hide EndsIndented, CommentsIndented, CommentLead, Flatten, BeginsLine;
    if cs == [] {
      assert before + [] == before;
      WhiteIsIndented(before, [], indent);
    } else {
      var lead, line := CommentLead(cs[0].ownLine, atStart, indent), [cs[0].piece, White('\n')];
      LeadIsIndented(Flatten(before), cs[0], atStart, indent);
      CommentLeadIsWhite(cs[0].ownLine, atStart, indent);
      WhiteIsIndented(before, lead, indent);
      FlattenJoins(before, lead);
      OneCommentIndented(before + lead, cs[0].piece, indent);
      CommentsJoin(before, lead, line, indent);
      FlattenJoins(before + lead, line);
      PairText(cs[0].piece);
      LineEnds(Flatten(before + lead) + PieceText(cs[0].piece));
      assert Flatten(before + lead) + (PieceText(cs[0].piece) + "\n") == Flatten(before + lead) + PieceText(cs[0].piece) + "\n";
      assert before + lead + line == before + (lead + line);
      CommentsAreIndented(before + (lead + line), cs[1..], true, indent);
      CommentsJoin(before, lead + line, CommentPieces(cs[1..], true, indent), indent);
      assert before + (lead + line) + CommentPieces(cs[1..], true, indent) == before + CommentPieces(cs, atStart, indent);
    }
  }

  /** What is printed between two tokens is indented, at level `indent` inside and at the token's own level at its end. */
  lemma SeparatorIsIndented(prev: Option<TokenKind>, indent: nat, gap: seq<Piece>, k: TokenKind)
    ensures IsIndented(Separator(prev, indent, gap, k), indent, OwnIndent(k, indent))
  {
    hide CommentPieces, EndsIndented, CommentsIndented, Flatten, BeginsLine;
    var cs := CommentsOf(gap, false);
    var first, ps := After(prev, indent), CommentPieces(cs, AtStart(prev), indent);
    var lead := Lead(prev, AtStart(prev) || cs != [], OwnIndent(k, indent), k);
    CommentsOfArePrinted(gap, false);
    AfterBeginsLine(prev, indent);
    CommentsAreIndented(first, cs, AtStart(prev), indent);
    WhiteIsIndented([], first, indent);
    assert [] + first == first;
    CommentsJoin([], first, ps, indent);
    LeadIsWhite(prev, AtStart(prev) || cs != [], OwnIndent(k, indent), k);
    WhiteIsIndented(first + ps, lead, indent);
    assert [] + (first + ps) == first + ps;
    CommentsJoin([], first + ps, lead, indent);
    LeadEndsIndented(Flatten(first + ps), prev, AtStart(prev) || cs != [], OwnIndent(k, indent), k);
    FlattenJoins(first + ps, lead);
    AllCommentsIndented(first + ps + lead, indent);
  }

  lemma AllCommentsIndented(ps: seq<Piece>, n: nat)
    requires CommentsIndented([], ps, n)
    ensures AllIndented(ps, n)
  {
    hide EndsIndented, Flatten;
    forall p | 0 <= p < |ps| && !ps[p].White? ensures EndsIndented(Flatten(ps[..p]), n) {
      assert [] + ps[..p] == ps[..p];
    }
  }

  lemma AfterBeginsLine(prev: Option<TokenKind>, indent: nat)
    ensures var text := Flatten(After(prev, indent)); if AtStart(prev) then BeginsLine(text) else text == ""
    ensures AllWhite(After(prev, indent))
  {
    NewlineText();
  }

  lemma LeadEndsIndented(text: string, prev: Option<TokenKind>, atStart: bool, own: nat, k: TokenKind)
    requires if atStart then BeginsLine(text) else text == ""
    ensures EndsIndented(text + Flatten(Lead(prev, atStart, own, k)), own)
  {
    hide NeedsSpaceBefore, StartsTopLevelDecl, EndsIndented;
    var broken := LineBreak(atStart, own, k);
    IndentText(own);
    NewlineText();
    if atStart || broken != [] {
      FlattenJoins(broken, Indent(own));
      hide Flatten;
      assert Flatten(broken) == "" || Flatten(broken) == "\n" || Flatten(broken) == "\n\n";
      assert text + (Flatten(broken) + Spaces(2 * own)) == text + Flatten(broken) + Spaces(2 * own);
      if atStart { assert text + "" == text; }
      IndentedLine(text + Flatten(broken), own);
    } else {
      NoLine(text + Flatten(Lead(prev, atStart, own, k)), own);
    }
  }

  lemma ClosingIsIndented(prev: Option<TokenKind>, indent: nat, gap: seq<Piece>)
    ensures AllIndented(Closing(prev, indent, gap), indent)
  {
    hide CommentPieces, EndsIndented, CommentsIndented, Flatten, BeginsLine;
    var cs := CommentsOf(gap, false);
    var first, ps := After(prev, indent), CommentPieces(cs, AtStart(prev), indent);
    CommentsOfArePrinted(gap, false);
    AfterBeginsLine(prev, indent);
    CommentsAreIndented(first, cs, AtStart(prev), indent);
    WhiteIsIndented([], first, indent);
    assert [] + first == first;
    CommentsJoin([], first, ps, indent);
    AllCommentsIndented(first + ps, indent);
  }

  // ----- lines and spaces between two tokens, by their texts -----

  /** Keywords and symbols as they are written; nothing for other tokens. */
  function Sign(k: TokenKind): string { if k.Sym? then SymbolText(k.symbol) else if k.Word? then KeywordText(k.keyword) else "" }

  const DECLARATIONS := {"type", "enum", "service", "fn", "test", "import", "const", "pub"}
  const VALUES := {"transaction", "true", "false", "null"}
  const OPERATORS := {"+", "-", "*", "/", "%", "=", "==", "!=", "<", "<=", ">", ">=", "&&", "||", "??", "|"}

  predicate Declares(k: TokenKind) { Sign(k) in DECLARATIONS || k == Ident("db") }

  /** Names, numbers and keywords, which would run together. */
  predicate IsWordish(k: TokenKind) { k.Ident? || k.Int? || k.Float? || (k.Word? && Sign(k) != "transaction") }

  /** How often the line is broken between two tokens with `depth` braces open between them. */
  function Breaks(prev: TokenKind, k: TokenKind, depth: nat): nat {
    if Sign(prev) == "}" then (if depth == 0 then 2 else 1)
    else if Sign(prev) == "{" || Sign(prev) == ";" || Sign(k) == "}" then 1
    else if depth == 0 && Declares(k) then 2
    else 0
  }

  predicate Spaced(prev: TokenKind, k: TokenKind) {
    && Sign(k) !in {",", ";", ")", "]", ".", "..", "?"}
    && Sign(prev) !in {".", "..", "!", "(", "[", "@"}
    && (|| Sign(prev) in {",", ":", "->", "=>"} || Sign(k) in {"->", "=>", "{"}
        || Sign(prev) in OPERATORS || Sign(k) in OPERATORS
        || (prev.Word? && Sign(prev) !in VALUES)
        || ((IsWordish(prev) || Sign(prev) in {")", "]"}) && IsWordish(k)))
  }

  /** What is written between two tokens that have no comment between them. */
  function Between(prev: TokenKind, k: TokenKind, depth: nat, own: nat): string {
    match Breaks(prev, k, depth)
    case 0 => if Spaced(prev, k) then " " else ""
    case 1 => "\n" + Spaces(2 * own)
    case _ => "\n\n" + Spaces(2 * own)
  }

  lemma WordSigns(w: Keyword)
    ensures KeywordText(w) in DECLARATIONS <==> StartsTopLevelDecl(Word(w))
    ensures KeywordText(w) == "transaction" <==> w == Transaction
  {}

  lemma MoreWordSigns(w: Keyword)
    ensures KeywordText(w) in VALUES <==> !SpaceAfter(Word(w))
  {}

  lemma WordBegins(w: Keyword)
    ensures KeywordText(w) != "" && 'a' <= KeywordText(w)[0] <= 'z'
  {}

  lemma SymbolSigns(s: Symbol)
    ensures SymbolText(s) in {",", ";", ")", "]", ".", "..", "?"} <==> NoSpaceBefore(Sym(s))
    ensures SymbolText(s) in {".", "..", "!", "(", "[", "@"} <==> NoSpaceAfter(Sym(s))
  {}

  lemma OperatorSigns(s: Symbol)
    ensures SymbolText(s) in {",", ":", "->", "=>"} <==> SpaceAfter(Sym(s))
    ensures SymbolText(s) in OPERATORS <==> IsOperator(Sym(s))
  {}

  lemma MoreSymbolSigns(s: Symbol)
    ensures SymbolText(s) in {"->", "=>", "{"} <==> s == Arrow || s == FatArrow || s == LBrace
    ensures SymbolText(s) in {")", "]"} <==> s == RParen || s == RBracket
    ensures SymbolText(s) !in DECLARATIONS && SymbolText(s) !in VALUES
  {}

  lemma BreakingSigns(s: Symbol)
    ensures SymbolText(s) == "}" <==> s == RBrace
    ensures SymbolText(s) == "{" <==> s == LBrace
    ensures SymbolText(s) == ";" <==> s == Semi
  {}

  lemma Signs(k: TokenKind)
    ensures Sign(k) in {",", ";", ")", "]", ".", "..", "?"} <==> NoSpaceBefore(k)
    ensures Sign(k) in {".", "..", "!", "(", "[", "@"} <==> NoSpaceAfter(k)
    ensures Sign(k) in {",", ":", "->", "=>"} || (k.Word? && Sign(k) !in VALUES) <==> SpaceAfter(k)
    ensures Sign(k) in OPERATORS <==> IsOperator(k)
    ensures Sign(k) in {"->", "=>", "{"} <==> k == Sym(Arrow) || k == Sym(FatArrow) || k == Sym(LBrace)
    ensures Sign(k) in {")", "]"} <==> k == Sym(RParen) || k == Sym(RBracket)
    ensures Sign(k) == "}" <==> k == Sym(RBrace)
    ensures Sign(k) == "{" <==> k == Sym(LBrace)
    ensures Sign(k) == ";" <==> k == Sym(Semi)
    ensures Declares(k) <==> StartsTopLevelDecl(k)
    ensures IsWordish(k) <==> IsWordLike(k)
  {
    hide SymbolText, KeywordText;
    if k.Word? {
      WordSigns(k.keyword);
      MoreWordSigns(k.keyword);
      WordBegins(k.keyword);
    }
    if k.Sym? {
      SymbolSigns(k.symbol);
      MoreSymbolSigns(k.symbol);
      OperatorSigns(k.symbol);
      BreakingSigns(k.symbol);
    }
  }

  lemma SpacedBySigns(prev: TokenKind, k: TokenKind)
    ensures NeedsSpaceBefore(prev, k) <==> Spaced(prev, k)
  {
    Signs(prev);
    Signs(k);
    hide Sign, IsWordish, IsWordLike, Declares, IsOperator, NoSpaceBefore, NoSpaceAfter, SpaceAfter;
  }

  lemma AfterText(prev: TokenKind, indent: nat)
    ensures Flatten(After(Some(prev), indent))
      == if prev == Sym(RBrace) && indent == 0 then "\n\n" else if AtStart(Some(prev)) then "\n" else ""
  {
    NewlineText();
    hide Flatten;
  }

  lemma LeadText(prev: TokenKind, own: nat, k: TokenKind)
    ensures Flatten(Lead(Some(prev), true, own, k)) == Spaces(2 * own)
    ensures Flatten(Lead(Some(prev), false, own, k))
      == if k == Sym(RBrace) then "\n" + Spaces(2 * own) else if own == 0 && StartsTopLevelDecl(k) then "\n\n" + Spaces(2 * own)
         else if NeedsSpaceBefore(prev, k) then " " else ""
  {
    var broken := LineBreak(false, own, k);
    NewlineText();
    IndentText(own);
    FlattenJoins(broken, Indent(own));
    assert [] + Indent(own) == Indent(own);
    hide Flatten, NeedsSpaceBefore, StartsTopLevelDecl;
  }

  lemma SeparatorIsBetween(prev: TokenKind, indent: nat, gap: seq<Piece>, k: TokenKind)
    requires CommentsOf(gap, false) == []
    ensures Flatten(Separator(Some(prev), indent, gap, k)) == Between(prev, k, indent, OwnIndent(k, indent))
  {
    var own := OwnIndent(k, indent);
    var first, lead := After(Some(prev), indent), Lead(Some(prev), AtStart(Some(prev)), own, k);
    assert Separator(Some(prev), indent, gap, k) == first + [] + lead == first + lead;
    FlattenJoins(first, lead);
    AfterText(prev, indent);
    LeadText(prev, own, k);
    hide Separator, After, Lead, Flatten, StartsTopLevelDecl, NeedsSpaceBefore;
    Signs(prev);
    Signs(k);
    SpacedBySigns(prev, k);
    hide Sign, Declares, Spaced;
  }

  // ----- comments -----

  predicate AllWhitespace(s: string) { forall i | 0 <= i < |s| :: IsWhitespace(s[i]) }

  /** As it was written; of a line comment, without the white space at its end. */
  ghost predicate IsKept(written: Piece, printed: Piece) {
    if written.Line? then
      && printed.Line? && (printed.text == "" || !IsWhitespace(printed.text[|printed.text| - 1]))
      && exists blank :: written.text == printed.text + blank && AllWhitespace(blank)
    else printed == written
  }

  /** The pieces of a gap that are no white space. */
  function Remarks(gap: seq<Piece>): seq<Piece> {
    if gap == [] then [] else if gap[0].White? then Remarks(gap[1..]) else [gap[0]] + Remarks(gap[1..])
  }

  lemma {:induction false} TrimmedIsKept(s: string)
    ensures IsKept(Line(s), Line(TrimEnd(s)))
  {
    if s != "" && IsWhitespace(s[|s| - 1]) {
      var front := s[..|s| - 1];
      TrimmedIsKept(front);
      var blank :| front == TrimEnd(front) + blank && AllWhitespace(blank);
      assert s == TrimEnd(s) + (blank + [s[|s| - 1]]);
    } else {
      assert s == s + "";
    }
  }

  /** Every comment is printed, in order, as it was written. */
  lemma {:induction false} CommentsAreKept(gap: seq<Piece>, newline: bool)
    ensures var cs := CommentsOf(gap, newline);
      |cs| == |Remarks(gap)| && forall i | 0 <= i < |cs| :: IsKept(Remarks(gap)[i], cs[i].piece)
  {
    hide IsKept;
    if gap != [] {
      if gap[0].White? {
        CommentsAreKept(gap[1..], newline || gap[0].c == '\n');
      } else {
        CommentsAreKept(gap[1..], false);
        PrintedIsKept(gap[0]);
      }
    }
  }

  lemma PrintedIsKept(p: Piece)
    ensures IsKept(p, Printed(p))
  {
    if p.Line? { TrimmedIsKept(p.text); }
  }

  /** A comment stands on its own line if a line begins between it and what was before it. */
  lemma {:induction false} OwnLineExactly(gap: seq<Piece>, newline: bool, p: nat)
    requires p < |gap| && !gap[p].White? && AllWhite(gap[..p])
    ensures CommentsOf(gap, newline) != [] && (CommentsOf(gap, newline)[0].ownLine <==> newline || White('\n') in gap[..p])
    ensures CommentsOf(gap, newline)[1..] == CommentsOf(gap[p + 1..], false)
  {
    if p > 0 {
      assert gap[..p][0] == gap[0] && gap[1..][..p - 1] == gap[..p][1..];
      assert gap[..p] == [gap[0]] + gap[..p][1..];
      OwnLineExactly(gap[1..], newline || gap[0].c == '\n', p - 1);
    }
  }

  /** After a token that does not end its line, a comment of the same line stays on it, after a space; one of its own
      line gets a line of its own. */
  lemma FirstCommentPlaced(prev: TokenKind, indent: nat, gap: seq<Piece>, k: TokenKind)
    requires !AtStart(Some(prev)) && CommentsOf(gap, false) != []
    ensures var c := CommentsOf(gap, false)[0];
      (if c.ownLine then "\n" + Spaces(2 * indent) else " ") + PieceText(c.piece) + "\n"
        <= Flatten(Separator(Some(prev), indent, gap, k))
  {
    var cs := CommentsOf(gap, false);
    var ps, lead := CommentPieces(cs, false, indent), Lead(Some(prev), true, OwnIndent(k, indent), k);
    assert Separator(Some(prev), indent, gap, k) == [] + ps + lead == ps + lead;
    hide CommentPieces, Lead, Separator, CommentsOf;
    FlattenJoins(ps, lead);
    CommentsUnfold(cs, false, indent);
    CommentLeadText(cs[0].ownLine, indent);
  }

  lemma CommentLeadText(ownLine: bool, indent: nat)
    ensures Flatten(CommentLead(ownLine, false, indent)) == if ownLine then "\n" + Spaces(2 * indent) else " "
  {
    NewlineText();
    IndentText(indent);
    FlattenJoins([White('\n')], Indent(indent));
  }

  /** The text ends with one newline. */
  lemma EndsInOneNewline(t: string, printFloat: string -> string) returns (s: string)
    requires LexAll(t).Some?
    ensures Format(t, printFloat) == Some(s + "\n") && (s == "" || !IsWhitespace(s[|s| - 1]))
  {
    hide LexAll, Written;
    s := TrimEnd(Written(LexAll(t).value, None, 0, printFloat));
    TrimmedVisibly(Written(LexAll(t).value, None, 0, printFloat));
  }

  // ----- a whole source -----

  /** The kinds up to item `i`, and with it if it closes a brace. */
  function Own(kinds: seq<TokenKind>, i: nat): seq<TokenKind>
    requires i < |kinds|
  {
    if kinds[i] == Sym(RBrace) then kinds[..i + 1] else kinds[..i]
  }

  /** What is printed before item `item`, `earlier` being the kinds before it, and `own` those that set its level. */
  ghost predicate IsLaidOut(earlier: seq<TokenKind>, own: seq<TokenKind>, item: Item, gap: seq<Piece>) {
    exists inside: nat, level: nat | IsDepth(earlier, inside) && IsDepth(own, level) :: IsPrinted(earlier, inside, level, item, gap)
  }

  /** Lines are indented by their depth, and without comments the gap is what the two tokens and the depth say. */
  ghost predicate IsPrinted(earlier: seq<TokenKind>, inside: nat, level: nat, item: Item, gap: seq<Piece>) {
    && IsIndented(gap, inside, level)
    && (earlier != [] && CommentsOf(item.gap, false) == [] ==>
        Flatten(gap) == Between(earlier[|earlier| - 1], item.kind, inside, level))
  }

  /** The comments at the end of a text. */
  ghost predicate TailIndented(kinds: seq<TokenKind>, tail: seq<Piece>) {
    exists inside: nat | IsDepth(kinds, inside) :: AllIndented(tail, inside)
  }

  function Last(kinds: seq<TokenKind>): Option<TokenKind> { if kinds == [] then None else Some(kinds[|kinds| - 1]) }

  lemma {:induction false} ArrangedIsLaidOut(x: Lexed, indent: nat, before: seq<TokenKind>, printFloat: string -> string)
    requires IsDepth(before, indent)
    ensures var y := Arrange(x, Last(before), indent, printFloat);
      && (forall i | 0 <= i < |x.items| ::
          IsLaidOut(before + Kinds(x.items)[..i], before + Own(Kinds(x.items), i), x.items[i], y.items[i].gap))
      && TailIndented(before + Kinds(x.items), y.tail)
    decreases |x.items|
  {
    hide IsDepth, IsPrinted, AllIndented, Separator, Closing, Render, NextIndent, IsLaidOut, Kinds, Own;
    var prev := Last(before);
    var y := Arrange(x, prev, indent, printFloat);
    if x.items == [] {
      assert before + Kinds(x.items) == before;
      ClosingIsIndented(prev, indent, x.tail);
    } else {
      var item := x.items[0];
      var level := NextIndent(item.kind, indent);
      var next := before + [item.kind];
      var rest := Arrange(Rest(x), Some(item.kind), level, printFloat);
      HeadIsLaidOut(before, indent, x.items);
      ArrangedIsLaidOut(Rest(x), level, next, printFloat);
      assert next + Kinds(Rest(x).items) == before + Kinds(x.items);
      forall i | 0 <= i < |x.items|
        ensures IsLaidOut(before + Kinds(x.items)[..i], before + Own(Kinds(x.items), i), x.items[i], y.items[i].gap)
      {
        if i > 0 {
          assert y.items[i] == rest.items[i - 1] && x.items[i] == Rest(x).items[i - 1];
          LaterKinds(before, x.items, i);
        }
      }
    }
  }

  lemma HeadIsLaidOut(before: seq<TokenKind>, indent: nat, items: seq<Item>)
    requires items != [] && IsDepth(before, indent)
    ensures IsDepth(before + [items[0].kind], NextIndent(items[0].kind, indent))
    ensures IsLaidOut(before + Kinds(items)[..0], before + Own(Kinds(items), 0), items[0],
      Separator(Last(before), indent, items[0].gap, items[0].kind))
  {
    var k := items[0].kind;
    DepthSteps(before, indent, k);
    SeparatorIsIndented(Last(before), indent, items[0].gap, k);
    if before != [] && CommentsOf(items[0].gap, false) == [] {
      SeparatorIsBetween(before[|before| - 1], indent, items[0].gap, k);
    }
    hide IsDepth, IsIndented, Separator, Between, NextIndent, OwnIndent, CommentsOf;
    HeadKinds(before, items);
    hide Own, Kinds;
    assert IsPrinted(before, indent, OwnIndent(k, indent), items[0], Separator(Last(before), indent, items[0].gap, k));
  }

  lemma HeadKinds(before: seq<TokenKind>, items: seq<Item>)
    requires items != []
    ensures var k := items[0].kind;
      && before + Kinds(items)[..0] == before
      && before + Own(Kinds(items), 0) == if k == Sym(RBrace) then before + [k] else before
  {
    assert Kinds(items)[..1] == [items[0].kind];
  }

  lemma LaterKinds(before: seq<TokenKind>, items: seq<Item>, i: nat)
    requires 0 < i < |items|
    ensures var kinds, rest, next := Kinds(items), Kinds(items[1..]), before + [items[0].kind];
      next + rest[..i - 1] == before + kinds[..i] && next + Own(rest, i - 1) == before + Own(kinds, i)
  {
    var kinds, rest, next := Kinds(items), Kinds(items[1..]), before + [items[0].kind];
    assert forall j | 0 <= j <= |rest| :: next + rest[..j] == before + kinds[..j + 1];
  }

  /** The text is the tokens with these gaps, whatever the braces of the source. */
  lemma FormatIsLaidOut(t: string, printFloat: string -> string)
    requires LexAll(t).Some? && DisplaysFloats(LexAll(t).value, printFloat)
    ensures var x := LexAll(t).value;
      var y := Arrange(x, None, 0, printFloat);
      && Format(t, printFloat) == Some(TextOf(y.items, y.tail))
      && (forall i | 0 <= i < |x.items| :: IsLaidOut(Kinds(x.items)[..i], Own(Kinds(x.items), i), x.items[i], y.items[i].gap))
      && TailIndented(Kinds(x.items), y.tail)
  {
    hide LexAll, DisplaysFloats, Format, IsLaidOut, TailIndented, Arrange, IsDepth, Kinds, Own;
    var x := LexAll(t).value;
    FormatIsDemoted(t, printFloat);
    NoDepth();
    ArrangedIsLaidOut(x, 0, [], printFloat);
    NothingBefore(Kinds(x.items));
  }

  lemma NothingBefore(kinds: seq<TokenKind>)
    ensures [] + kinds == kinds
    ensures forall i | 0 <= i < |kinds| :: [] + kinds[..i] == kinds[..i] && [] + Own(kinds, i) == Own(kinds, i)
  {}

  /** Where closing braces never outnumber opening ones: each line stands two spaces in for each `{` before it less each
      `}` up to it, and each comment likewise for what stands before it. */
  lemma BalancedIsIndented(t: string, printFloat: string -> string, i: nat)
    requires LexAll(t).Some? && DisplaysFloats(LexAll(t).value, printFloat) && i < |LexAll(t).value.items|
    requires var kinds := Kinds(LexAll(t).value.items); forall j | 0 <= j <= |kinds| :: Braces(kinds[..j]) >= 0
    ensures var x := LexAll(t).value;
      var kinds, gap := Kinds(x.items), Arrange(x, None, 0, printFloat).items[i].gap;
      var inside, own := Opened(kinds[..i]) - Closed(kinds[..i]), Opened(kinds[..i]) - Closed(kinds[..i + 1]);
      inside >= 0 && own >= 0 && IsIndented(gap, inside, own)
  {
    hide LexAll, DisplaysFloats, Format, IsIndented, Arrange, TailIndented, IsLaidOut, IsDepth, Braces, Opened, Closed;
    var x := LexAll(t).value;
    var kinds := Kinds(x.items);
    FormatIsLaidOut(t, printFloat);
    BalancedPrefix(kinds, i);
    BalancedPrefix(kinds, i + 1);
    OneMoreKind(kinds, i);
    AtItsDepths(kinds[..i], Own(kinds, i), x.items[i], Arrange(x, None, 0, printFloat).items[i].gap);
  }

  lemma AtItsDepths(earlier: seq<TokenKind>, own: seq<TokenKind>, item: Item, gap: seq<Piece>)
    requires IsLaidOut(earlier, own, item, gap)
    requires Braces(earlier) >= 0 && forall d :: IsDepth(earlier, d) <==> d == Braces(earlier)
    requires Braces(own) >= 0 && forall d :: IsDepth(own, d) <==> d == Braces(own)
    ensures IsIndented(gap, Braces(earlier), Braces(own))
  {
    hide IsDepth, Braces, IsIndented, Between;
  }

  function Opened(kinds: seq<TokenKind>): int { multiset(kinds)[Sym(LBrace)] }

  function Closed(kinds: seq<TokenKind>): int { multiset(kinds)[Sym(RBrace)] }

  lemma OneMoreKind(kinds: seq<TokenKind>, i: nat)
    requires i < |kinds|
    ensures Braces(kinds[..i]) == Opened(kinds[..i]) - Closed(kinds[..i])
    ensures Braces(Own(kinds, i)) == Opened(kinds[..i]) - Closed(kinds[..i + 1])
  {
    assert kinds[..i + 1] == kinds[..i] + [kinds[i]];
    assert multiset(kinds[..i + 1]) == multiset(kinds[..i]) + multiset{kinds[i]};
  }

  lemma BalancedPrefix(kinds: seq<TokenKind>, n: nat)
    requires n <= |kinds| && forall j | 0 <= j <= |kinds| :: Braces(kinds[..j]) >= 0
    ensures forall d :: IsDepth(kinds[..n], d) <==> d == Braces(kinds[..n])
    ensures Braces(kinds[..n]) >= 0
  {
    hide Braces, IsDepth;
    forall j | 0 <= j <= n ensures Braces(kinds[..n][..j]) >= 0 {
      assert kinds[..n][..j] == kinds[..j];
    }
    forall d ensures IsDepth(kinds[..n], d) <==> d == Braces(kinds[..n]) {
      BalancedDepth(kinds[..n], d);
    }
  }
}
