/** Tokens with their place in the text, and what the spans of a whole text are like. */
module Spans {
  import opened Lexing
  import opened Locality
  import opened Tokens
  import opened Wrappers

  datatype Span = Span(start: nat, end: nat, line: nat, col: nat)

  datatype Token = Token(kind: TokenKind, span: Span)

  datatype LexError = LexError(span: Span)

  /** Line and column, both from 1, after reading `s`. */
  function Position(s: string): (r: (nat, nat))
    ensures r.0 >= 1 && r.1 >= 1
  {
    if s == "" then (1, 1)
    else
      var (line, col) := Position(s[..|s| - 1]);
      if s[|s| - 1] == '\n' then (line + 1, 1) else (line, col + 1)
  }

  /** The span lies in the text, and its line and column are those of its first character. */
  predicate Placed(span: Span, chars: string) {
    span.start <= span.end <= |chars| && (span.line, span.col) == Position(chars[..span.start])
  }

  /** The tokens of a text with their spans, `at` being where the first item's gap begins. */
  function Laid(items: seq<Item>, tail: seq<Piece>, chars: string, at: nat): seq<Token> {
    if items == [] then [TokenAt(Eof, chars, at + Width(tail), at + Width(tail))]
    else
      var start := at + Width(items[0].gap);
      var end := start + |items[0].text|;
      [TokenAt(items[0].kind, chars, start, end)] + Laid(items[1..], tail, chars, end)
  }

  function TokenAt(kind: TokenKind, chars: string, start: nat, end: nat): Token {
    var (line, col) := if start <= |chars| then Position(chars[..start]) else (0, 0);
    Token(kind, Span(start, end, line, col))
  }

  lemma Slices(s: string, i: nat, k: nat)
    requires i + k <= |s|
    ensures s[i..][k..] == s[i + k..] && s[i..][..k] == s[i..i + k]
  {}

  /** The token with its span, where `found` is its kind and the length with the trivia before it. */
  function Whole(found: Option<(TokenKind, nat)>, chars: string, from: nat): Option<(Token, nat)>
    requires from <= |chars|
  {
    if found.None? then None
    else
      var trivia := Trivia(chars[from..]);
      var start := from + if trivia.Some? then Width(trivia.value) else 0;
      Some((TokenAt(found.value.0, chars, start, from + found.value.1), found.value.1))
  }

  function TokensOf(x: Lexed, chars: string, at: nat): seq<Token> { Laid(x.items, x.tail, chars, at) }

  lemma RunStep(chars: string, at: nat)
    requires at <= |chars|
    ensures var t := chars[at..];
      match Whole(Lexing.NextToken(t), chars, at) {
        case None => LexAll(t) == None
        case Some((token, n)) =>
          if token.kind == Eof then LexAll(t).Some? && TokensOf(LexAll(t).value, chars, at) == [token]
          else
            && LexAll(t).Some? == LexAll(t[n..]).Some?
            && (LexAll(t).Some? ==>
              TokensOf(LexAll(t).value, chars, at) == [token] + TokensOf(LexAll(t[n..]).value, chars, at + n))
      }
  {
    hide LexToken, Trivia, Width, Position;
  }

  /** The text of a lexed source, gaps and tokens in order. */
  function TextOf(items: seq<Item>, tail: seq<Piece>): string {
    if items == [] then Flatten(tail) else Flatten(items[0].gap) + items[0].text + TextOf(items[1..], tail)
  }

  /** Nothing of the source is lost between the gaps and the tokens. */
  lemma {:induction false} LexIsLossless(t: string)
    requires LexAll(t).Some?
    ensures TextOf(LexAll(t).value.items, LexAll(t).value.tail) == t
    decreases |t|
  {
    hide LexToken, Trivia, Width, Flatten;
    var x := LexAll(t).value;
    var n := Width(Trivia(t).value);
    TriviaIsText(t);
    if n == |t| {
      assert t[..n] == t;
    } else {
      var m := LexToken(t[n..]).value.1;
      LexIsLossless(t[n + m..]);
      assert x.items[1..] == LexAll(t[n + m..]).value.items;
      assert t == t[..n] + t[n..n + m] + t[n + m..];
    }
  }

  /** What stands between the end of one token and the start of the next is white space and comments. */
  predicate OnlyTrivia(t: string) { Trivia(t).Some? && Width(Trivia(t).value) == |t| }

  /** Token `i` begins at or after the end of the one before it, with only trivia between; its line and column are
      those of its start; it shows the text it was read from, or is `Eof`, at the end of `t`. */
  predicate SpanFits(tokens: seq<Token>, items: seq<Item>, t: string, at: nat, i: nat) {
    && i < |tokens| == |items| + 1
    && Placed(tokens[i].span, t)
    && (var from := if i == 0 then at else tokens[i - 1].span.end;
       from <= tokens[i].span.start && OnlyTrivia(t[from..tokens[i].span.start]))
    && if i == |items| then tokens[i].kind == Eof && tokens[i].span.start == |t|
       else
         && tokens[i].span.start < tokens[i].span.end
         && tokens[i].kind == items[i].kind && t[tokens[i].span.start..tokens[i].span.end] == items[i].text
  }

  /** The spans of the tokens are in order and do not overlap, and with trivia between them they make up the text. */
  lemma SpansCoverTheText(t: string, i: nat)
    requires LexAll(t).Some? && i <= |LexAll(t).value.items|
    ensures SpanFits(TokensOf(LexAll(t).value, t, 0), LexAll(t).value.items, t, 0, i)
  {
    assert t[0..] == t;
    SpansFrom(t, 0, i);
  }

  lemma {:induction false} SpansFrom(t: string, at: nat, i: nat)
    requires at <= |t| && LexAll(t[at..]).Some? && i <= |LexAll(t[at..]).value.items|
    ensures SpanFits(TokensOf(LexAll(t[at..]).value, t, at), LexAll(t[at..]).value.items, t, at, i)
    decreases |t| - at
  {
    hide LexAll, Width, Position, OnlyTrivia;
    var x := LexAll(t[at..]).value;
    var tokens := TokensOf(x, t, at);
    if x.items == [] {
      OnlyTail(t, at, x);
    } else {
      var end, rest := FirstItem(t, at, x);
      var others := TokensOf(rest, t, end);
      assert tokens == [tokens[0]] + others;
      if i > 0 {
        SpansFrom(t, end, i - 1);
        hide TokensOf;
        assert tokens[i] == others[i - 1] && (i > 1 ==> tokens[i - 1] == others[i - 2]);
      } else {
        SpansFrom(t, end, 0);
      }
    }
  }

  lemma OnlyTail(t: string, at: nat, x: Lexed)
    requires at <= |t| && LexAll(t[at..]) == Some(x) && x.items == []
    ensures at + Width(x.tail) == |t| && OnlyTrivia(t[at..|t|])
  {
    hide LexToken, Trivia, Width;
    assert t[at..|t|] == t[at..];
  }

  lemma FirstItem(t: string, at: nat, x: Lexed) returns (end: nat, rest: Lexed)
    requires at <= |t| && LexAll(t[at..]) == Some(x) && x.items != []
    ensures at + Width(x.items[0].gap) < end == at + Width(x.items[0].gap) + |x.items[0].text| <= |t|
    ensures OnlyTrivia(t[at..at + Width(x.items[0].gap)]) && t[at + Width(x.items[0].gap)..end] == x.items[0].text
    ensures LexAll(t[end..]) == Some(rest) && rest == Lexed(x.items[1..], x.tail)
  {
    hide LexToken, Trivia, Width, OnlyTrivia;
    var n := Width(Trivia(t[at..]).value);
    GapIsTrivia(t, at);
    var m := LexToken(t[at..][n..]).value.1;
    end := at + n + m;
    Slices(t, at, n + m);
    rest := LexAll(t[end..]).value;
    assert t[at..][n..n + m] == t[at + n..end];
  }

  lemma GapIsTrivia(t: string, at: nat)
    requires at <= |t| && Trivia(t[at..]).Some?
    ensures OnlyTrivia(t[at..at + Width(Trivia(t[at..]).value)])
  {
    hide Trivia, Width;
    var n := Width(Trivia(t[at..]).value);
    var gap := t[at..at + n];
    assert gap == t[at..][..n] && gap[..n] == gap && gap[n..] == "";
    TriviaIsLocal(t[at..], gap);
  }
}
