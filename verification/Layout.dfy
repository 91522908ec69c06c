/** What the formatter (`fmt.rs`) prints, as a rearrangement of a lexed source: the same tokens, with new gaps. */
module Layout {
  import opened Chars
  import opened Lexing
  import opened Tokens
  import opened Wrappers

  // ----- which tokens are printed apart -----

  predicate NoSpaceBefore(k: TokenKind) {
    k.Sym? &&
    match k.symbol
    case Comma | Semi | RParen | RBracket | Dot | DotDot | Question => true
    case _ => false
  }

  predicate NoSpaceAfter(k: TokenKind) {
    k.Sym? &&
    match k.symbol
    case Dot | DotDot | Bang | LParen | LBracket | At => true
    case _ => false
  }

  predicate IsOperator(k: TokenKind) {
    k.Sym? &&
    match k.symbol
    case Plus | Minus | Star | Slash | Percent | Equals | EqEq | NotEq | Lt | LtEq | Gt | GtEq => true
    case AmpAmp | PipePipe | QuestionQuestion | Pipe => true
    case _ => false
  }

  predicate SpaceAfter(k: TokenKind) {
    match k
    case Sym(s) => s == Comma || s == Colon || s == Arrow || s == FatArrow
    case Word(w) => w != Transaction && w != True && w != False && w != Null
    case _ => false
  }

  predicate SpaceBefore(k: TokenKind) { IsOperator(k) || k == Sym(Arrow) || k == Sym(FatArrow) || k == Sym(LBrace) }

  predicate IsWordLike(k: TokenKind) { k.Ident? || k.Int? || k.Float? || (k.Word? && k.keyword != Transaction) }

  predicate NeedsSpaceBefore(prev: TokenKind, curr: TokenKind) {
    if NoSpaceBefore(curr) then false
    else if NoSpaceAfter(prev) then false
    else if SpaceAfter(prev) then true
    else if SpaceBefore(curr) then true
    else if IsOperator(prev) then true
    else if IsWordLike(prev) && IsWordLike(curr) then true
    else (prev == Sym(RParen) || prev == Sym(RBracket)) && IsWordLike(curr)
  }

  predicate StartsTopLevelDecl(k: TokenKind) {
    match k
    case Word(w) => w == Type || w == Enum || w == Service || w == Fn || w == Test || w == Import || w == Const || w == Pub
    case Ident(name) => name == "db"
    case _ => false
  }

  // ----- comments -----

  function TrimEnd(s: string): (r: string)
    ensures |r| <= |s|
  {
    if s != "" && IsWhitespace(s[|s| - 1]) then TrimEnd(s[..|s| - 1]) else s
  }

  /** A comment as it is printed, and whether a newline comes before it in its gap. */
  datatype Comment = Comment(piece: Piece, ownLine: bool)

  function Printed(p: Piece): Piece { if p.Line? then Line(TrimEnd(p.text)) else p }

  function CommentsOf(gap: seq<Piece>, newline: bool): seq<Comment> {
    if gap == [] then []
    else if gap[0].White? then CommentsOf(gap[1..], newline || gap[0].c == '\n')
    else [Comment(Printed(gap[0]), newline)] + CommentsOf(gap[1..], false)
  }

  function Indent(n: nat): seq<Piece> { if n == 0 then [] else [White(' '), White(' ')] + Indent(n - 1) }

  function CommentPieces(cs: seq<Comment>, atStart: bool, indent: nat): seq<Piece> {
    if cs == [] then []
    else CommentLead(cs[0].ownLine, atStart, indent) + [cs[0].piece, White('\n')] + CommentPieces(cs[1..], true, indent)
  }

  function CommentLead(ownLine: bool, atStart: bool, indent: nat): seq<Piece> {
    if atStart then Indent(indent) else if ownLine then [White('\n')] + Indent(indent) else [White(' ')]
  }

  // ----- gaps -----

  /** The line is broken after braces and semicolons, and twice after a closing brace at level zero. */
  function After(prev: Option<TokenKind>, indent: nat): seq<Piece> {
    if !AtStart(prev) || prev.None? then []
    else if prev.value == Sym(RBrace) && indent == 0 then [White('\n'), White('\n')]
    else [White('\n')]
  }

  predicate AtStart(prev: Option<TokenKind>) {
    prev.None? || prev.value == Sym(LBrace) || prev.value == Sym(Semi) || prev.value == Sym(RBrace)
  }

  /** The level at which a token itself is printed. */
  function OwnIndent(k: TokenKind, indent: nat): nat { if k == Sym(RBrace) && indent > 0 then indent - 1 else indent }

  function NextIndent(k: TokenKind, indent: nat): nat { if k == Sym(LBrace) then indent + 1 else OwnIndent(k, indent) }

  function LineBreak(atStart: bool, indent: nat, k: TokenKind): seq<Piece> {
    if atStart then []
    else if k == Sym(RBrace) then [White('\n')]
    else if indent == 0 && StartsTopLevelDecl(k) then [White('\n'), White('\n')]
    else []
  }

  /** What is printed last before a token, at its own level. */
  function Lead(prev: Option<TokenKind>, atStart: bool, indent: nat, k: TokenKind): seq<Piece> {
    var broken := LineBreak(atStart, indent, k);
    if atStart || broken != [] then broken + Indent(indent)
    else if prev.Some? && NeedsSpaceBefore(prev.value, k) then [White(' ')]
    else []
  }

  /** All that is printed between `prev` and the next token, of kind `k`, with the comments of the gap between them. */
  function Separator(prev: Option<TokenKind>, indent: nat, gap: seq<Piece>, k: TokenKind): seq<Piece> {
    var comments := CommentsOf(gap, false);
    After(prev, indent) + CommentPieces(comments, AtStart(prev), indent)
    + Lead(prev, AtStart(prev) || comments != [], OwnIndent(k, indent), k)
  }

  /** At the end of the text one newline is left. */
  function Closing(prev: Option<TokenKind>, indent: nat, gap: seq<Piece>): seq<Piece> {
    var comments := CommentsOf(gap, false);
    if comments == [] then [White('\n')] else After(prev, indent) + CommentPieces(comments, AtStart(prev), indent)
  }

  // ----- tokens -----

  function Replace(s: string, c: char, text: string): string {
    if s == "" then "" else (if s[0] == c then text else [s[0]]) + Replace(s[1..], c, text)
  }

  /** Backslashes first, then quotes; nothing else is escaped. */
  function Escape(s: string): string { Replace(Replace(s, '\\', "\\\\"), '"', "\\\"") }

  /** `text` is the source of the token; `printFloat` prints the value of a float literal. */
  function Render(k: TokenKind, text: string, printFloat: string -> string): string {
    match k
    case Int(n) => Decimal(n)
    case Float(literal) => printFloat(literal)
    case Str(s) => "\"" + Escape(s) + "\""
    case Ident(name) => name
    case HtmlLit(_) => text
    case Word(w) => KeywordText(w)
    case Sym(s) => SymbolText(s)
    case Eof => ""
  }

  /** The token with the text that its value is printed as; only a float may have been written otherwise. */
  function Reprinted(k: TokenKind, printFloat: string -> string): TokenKind {
    if k.Float? then Float(printFloat(k.text)) else k
  }

  // ----- a whole text -----

  /** The tokens of `x` as printed after `prev`, at level `indent`. */
  function Arrange(x: Lexed, prev: Option<TokenKind>, indent: nat, printFloat: string -> string): (y: Lexed)
    ensures |y.items| == |x.items|
    decreases |x.items|
  {
    if x.items == [] then Lexed([], Closing(prev, indent, x.tail))
    else
      var item := x.items[0];
      var rest := Arrange(Lexed(x.items[1..], x.tail), Some(item.kind), NextIndent(item.kind, indent), printFloat);
      var gap := Separator(prev, indent, item.gap, item.kind);
      Lexed([Item(gap, Reprinted(item.kind, printFloat), Render(item.kind, item.text, printFloat))] + rest.items, rest.tail)
  }

  /** The same as it is written out, after the line break that belongs to `prev` and before the end is trimmed. */
  function Written(x: Lexed, prev: Option<TokenKind>, indent: nat, printFloat: string -> string): string
    decreases |x.items|
  {
    if x.items == [] then Flatten(CommentPieces(CommentsOf(x.tail, false), AtStart(prev), indent))
    else
      var k := x.items[0].kind;
      WrittenItem(x.items[0], prev, indent, printFloat)
      + Written(Lexed(x.items[1..], x.tail), Some(k), NextIndent(k, indent), printFloat)
  }

  /** One token with the comments before it and the line break after it. */
  function WrittenItem(item: Item, prev: Option<TokenKind>, indent: nat, printFloat: string -> string): string {
    var comments := CommentsOf(item.gap, false);
    Flatten(CommentPieces(comments, AtStart(prev), indent))
    + Flatten(Lead(prev, AtStart(prev) || comments != [], OwnIndent(item.kind, indent), item.kind))
    + Render(item.kind, item.text, printFloat)
    + Flatten(After(Some(item.kind), NextIndent(item.kind, indent)))
  }

  /** What the formatter makes of a source, if that can be lexed. */
  function Format(t: string, printFloat: string -> string): Option<string> {
    var x := LexAll(t);
    if x.None? then None else Some(TrimEnd(Written(x.value, None, 0, printFloat)) + "\n")
  }

  // ----- tokens that run together -----

  /** Nothing is printed between `prev` and the next token. */
  predicate Tight(prev: TokenKind, indent: nat, gap: seq<Piece>, k: TokenKind) {
    && !AtStart(Some(prev)) && CommentsOf(gap, false) == []
    && k != Sym(RBrace) && !(indent == 0 && StartsTopLevelDecl(k))
    && !NeedsSpaceBefore(prev, k)
  }

  /** The printed text of `k` begins with a letter, a digit or an underscore. */
  predicate BeginsLikeWord(k: TokenKind) { k.Ident? || k.Int? || k.Float? || k.Word? || k.HtmlLit? }

  /** Printed without a space, the two tokens are read as others. */
  predicate RunTogether(prev: TokenKind, k: TokenKind) {
    match prev
    case Sym(Question) => k == Sym(Question)
    case Sym(Dot) => k == Sym(Dot) || k == Sym(DotDot)
    case Sym(Bang) => k == Sym(Equals) || k == Sym(EqEq) || k == Sym(FatArrow)
    case Ident(_) => BeginsLikeWord(k)
    case Word(_) => BeginsLikeWord(k)
    case _ => false
  }

  /** An integer, a dot and a number, all printed without a space, are read as a float. */
  predicate ReadAsFloat(items: seq<Item>, indent: nat) {
    && |items| > 2
    && items[0].kind.Int? && items[1].kind == Sym(Dot) && (items[2].kind.Int? || items[2].kind.Float?)
    && Tight(items[0].kind, indent, items[1].gap, items[1].kind) && Tight(items[1].kind, indent, items[2].gap, items[2].kind)
  }

  /** Somewhere two or three tokens are printed so that they are read as others; `indent` is the level before the first. */
  predicate Glued(items: seq<Item>, indent: nat) {
    if |items| < 2 then false
    else
      var level := NextIndent(items[0].kind, indent);
      || (Tight(items[0].kind, level, items[1].gap, items[1].kind) && RunTogether(items[0].kind, items[1].kind))
      || ReadAsFloat(items, level)
      || Glued(items[1..], level)
  }
}
