/** Tokens (`token.rs`), with keywords and punctuation grouped, and their text. */
module Tokens {
  import opened Wrappers

  datatype Keyword =
    | Type | Enum | Service | Rpc | Stream | Match | Import | From | Pub | Const | Fn | Let | Mut | Return
    | If | Else | While | For | In | Test | Transaction | True | False | Null

  datatype Symbol =
    | LBrace | RBrace | LParen | RParen | LBracket | RBracket | Comma | Semi | Colon | Question | QuestionQuestion
    | At | Pipe | Lt | Gt | Equals | Arrow | FatArrow | Dot | DotDot | Plus | Minus | Star | Slash | Percent
    | EqEq | NotEq | LtEq | GtEq | AmpAmp | PipePipe | Bang

  /** A float keeps the text of its literal; the tokens of a `${...}` keep their kinds only. */
  datatype TokenKind =
    | Int(n: nat)
    | Float(text: string)
    | Str(s: string)
    | Ident(name: string)
    | HtmlLit(parts: seq<HtmlPart>)
    | Word(keyword: Keyword)
    | Sym(symbol: Symbol)
    | Eof

  datatype HtmlPart = Text(text: string) | Expr(tokens: seq<TokenKind>)

  function KeywordText(k: Keyword): string {
    match k
    case Type => "type"
    case Enum => "enum"
    case Service => "service"
    case Rpc => "rpc"
    case Stream => "stream"
    case Match => "match"
    case Import => "import"
    case From => "from"
    case Pub => "pub"
    case Const => "const"
    case Fn => "fn"
    case Let => "let"
    case Mut => "mut"
    case Return => "return"
    case If => "if"
    case Else => "else"
    case While => "while"
    case For => "for"
    case In => "in"
    case Test => "test"
    case Transaction => "transaction"
    case True => "true"
    case False => "false"
    case Null => "null"
  }

  function KeywordFromStr(s: string): (r: Option<Keyword>)
    ensures r.Some? ==> KeywordText(r.value) == s
  {
    var k := DeclarationKeyword(s);
    if k.Some? then k else StatementKeyword(s)
  }

  function DeclarationKeyword(s: string): (r: Option<Keyword>)
    ensures r.Some? ==> KeywordText(r.value) == s
  {
    if s == "type" then Some(Type)
    else if s == "enum" then Some(Enum)
    else if s == "service" then Some(Service)
    else if s == "rpc" then Some(Rpc)
    else if s == "stream" then Some(Stream)
    else if s == "match" then Some(Match)
    else if s == "import" then Some(Import)
    else if s == "from" then Some(From)
    else if s == "pub" then Some(Pub)
    else if s == "const" then Some(Const)
    else if s == "fn" then Some(Fn)
    else None
  }

  function StatementKeyword(s: string): (r: Option<Keyword>)
    ensures r.Some? ==> KeywordText(r.value) == s
  {
    if s == "let" then Some(Let)
    else if s == "mut" then Some(Mut)
    else if s == "return" then Some(Return)
    else if s == "if" then Some(If)
    else if s == "else" then Some(Else)
    else if s == "while" then Some(While)
    else if s == "for" then Some(For)
    else if s == "in" then Some(In)
    else if s == "test" then Some(Test)
    else if s == "transaction" then Some(Transaction)
    else if s == "true" then Some(True)
    else if s == "false" then Some(False)
    else if s == "null" then Some(Null)
    else None
  }

  lemma KeywordRoundTrip(k: Keyword)
    ensures KeywordFromStr(KeywordText(k)) == Some(k)
  {}

  function SymbolText(s: Symbol): string {
    match s
    case LBrace => "{"
    case RBrace => "}"
    case LParen => "("
    case RParen => ")"
    case LBracket => "["
    case RBracket => "]"
    case Comma => ","
    case Semi => ";"
    case Colon => ":"
    case Question => "?"
    case QuestionQuestion => "??"
    case At => "@"
    case Pipe => "|"
    case Lt => "<"
    case Gt => ">"
    case Equals => "="
    case Arrow => "->"
    case FatArrow => "=>"
    case Dot => "."
    case DotDot => ".."
    case Plus => "+"
    case Minus => "-"
    case Star => "*"
    case Slash => "/"
    case Percent => "%"
    case EqEq => "=="
    case NotEq => "!="
    case LtEq => "<="
    case GtEq => ">="
    case AmpAmp => "&&"
    case PipePipe => "||"
    case Bang => "!"
  }

  function SymbolWidth(s: Symbol): nat {
    match s
    case QuestionQuestion | Arrow | FatArrow | DotDot | EqEq | NotEq | LtEq | GtEq | AmpAmp | PipePipe => 2
    case _ => 1
  }

  lemma SymbolsAreShort(s: Symbol)
    ensures |SymbolText(s)| == SymbolWidth(s)
  {}

  /** Opening braces less closing ones. */
  function Braces(kinds: seq<TokenKind>): int { multiset(kinds)[Sym(LBrace)] as int - multiset(kinds)[Sym(RBrace)] as int }

  lemma BracesAdd(k: TokenKind, kinds: seq<TokenKind>)
    ensures Braces([k] + kinds) == Braces(kinds) + if k == Sym(LBrace) then 1 else if k == Sym(RBrace) then -1 else 0
  {
    assert multiset([k] + kinds) == multiset{k} + multiset(kinds);
  }
}
