/** The formatter (`fmt.rs`): loops over the tokens and over the gaps between them, proved to write what `Layout` defines. */
module Formatter {
  import opened Chars
  import opened Layout
  import opened Lexer
  import opened Lexing
  import opened LexSteps
  import opened Locality
  import opened Spans
  import opened Tokens
  import opened Trimming
  import opened Wrappers

  // ----- comments in a gap -----

  /** Length of the block comment at the head of a gap, which may be cut off at its end. */
  function BlockLen(gap: string): (n: nat)
    requires |gap| >= 2
    ensures 2 <= n <= |gap|
  {
    var end := BlockEnd(gap[2..]);
    if end.None? then |gap| else 2 + end.value
  }

  /** The comments in the text of a gap; all else is passed over. */
  function ScanGap(gap: string, newline: bool): seq<Comment>
    decreases |gap|
  {
    if gap == "" then []
    else if gap[0] == '/' && CharAt(gap, 1, '/') && LineLen(gap) > 0 then
      [Comment(Line(TrimEnd(gap[..LineLen(gap)])), newline)] + ScanGap(gap[LineLen(gap)..], false)
    else if gap[0] == '/' && CharAt(gap, 1, '*') then
      [Comment(Block(gap[..BlockLen(gap)]), newline)] + ScanGap(gap[BlockLen(gap)..], false)
    else ScanGap(gap[1..], newline || gap[0] == '\n')
  }

  /** Between tokens a gap is trivia, and its comments are those the lexer passed over. */
  lemma {:induction false} ScanFindsComments(gap: string, newline: bool)
    requires OnlyTrivia(gap)
    ensures ScanGap(gap, newline) == CommentsOf(Trivia(gap).value, newline)
    decreases |gap|
  {
    hide BlockEnd, LineLen, TrimEnd, IsWhitespace;
    var ps := Trivia(gap).value;
    if gap != "" {
      var p := HeadPiece(gap).value.value;
      var n := |PieceText(p)|;
      assert ps == [p] + Trivia(gap[n..]).value;
      assert ps[1..] == Trivia(gap[n..]).value;
      SlashIsNotWhite();
      ScanFindsComments(gap[n..], if p.White? then newline || p.c == '\n' else false);
    }
  }

  lemma SlashIsNotWhite()
    ensures !IsWhitespace('/')
  {}

  function Repeat(s: string, n: nat): string { if n == 0 then "" else s + Repeat(s, n - 1) }

  lemma {:induction false} IndentText(n: nat)
    ensures Flatten(Indent(n)) == Repeat("  ", n)
  {
    if n > 0 {
      IndentText(n - 1);
      var ps := Indent(n);
      assert ps[1..] == [White(' ')] + Indent(n - 1) && ps[1..][1..] == Indent(n - 1);
      assert "  " == " " + " ";
    }
  }

  method PushComment(out: string, text: string, ownLine: bool, atLineStart: bool, indentLevel: nat)
    returns (result: string, lineStart: bool)
    ensures result == out + Flatten(CommentLead(ownLine, atLineStart, indentLevel)) + text + "\n" && lineStart
  {
    IndentText(indentLevel);
    FlattenJoins([White('\n')], Indent(indentLevel));
    NewlineAndSpace();
    result := out;
    if ownLine || atLineStart {
      if !atLineStart {
        result := result + "\n";
      }
      result := result + Repeat("  ", indentLevel);
    } else {
      result := result + " ";
    }
    result := result + text;
    result := result + "\n";
    lineStart := true;
  }

  lemma NewlineAndSpace()
    ensures Flatten([White('\n')]) == "\n" && Flatten([White(' ')]) == " " && Flatten([White('\n'), White('\n')]) == "\n\n" && Flatten([]) == ""
  {
    assert [White('\n')][1..] == [] && [White(' ')][1..] == [] && [White('\n'), White('\n')][1..] == [White('\n')];
    assert "\n" + "\n" == "\n\n";
  }

  /** The text of the gap from `from` to `to`; none if that is no part of the source. */
  function GapText(chars: string, from: nat, to: nat): string { if from >= to || to > |chars| then "" else chars[from..to] }

  /** What writing the comments `cs` adds, and whether a line is then to begin. */
  predicate Emitted(before: string, atStart: bool, cs: seq<Comment>, indent: nat, after: string, lineStart: bool) {
    after == before + Flatten(CommentPieces(cs, atStart, indent)) && (lineStart <==> atStart || cs != [])
  }

  method LineCommentEnd(gap: string, start: nat) returns (j: nat)
    requires start <= |gap|
    ensures j == start + LineLen(gap[start..])
  {
    j := start;
    while j < |gap| && gap[j] != '\n'
      invariant start <= j <= |gap| && '\n' !in gap[start..j]
    {
      assert gap[start..j + 1] == gap[start..j] + [gap[j]];
      j := j + 1;
    }
    assert gap[start..][..j - start] == gap[start..j];
    LineEnds(gap[start..], j - start);
  }

  method BlockCommentEnd(gap: string, start: nat) returns (j: nat)
    requires start + 2 <= |gap|
    ensures j == start + BlockLen(gap[start..])
  {
    hide BlockEnd, BlockSoFar;
    j := start + 2;
    BlockBegins(gap, j);
    while j + 1 < |gap| && !(gap[j] == '*' && gap[j + 1] == '/')
      invariant start + 2 <= j <= |gap| && BlockSoFar(gap, start + 2, j)
    {
      BlockGoesOn(gap, start + 2, j);
      j := j + 1;
    }
    BlockGoesOn(gap, start + 2, j);
    if j + 1 == |gap| {
      BlockGoesOn(gap, start + 2, j + 1);
    }
    assert gap[start..][2..] == gap[start + 2..];
    j := if j + 2 < |gap| then j + 2 else |gap|;
  }

  /** The comments from `j` on are still to be written. */
  predicate ToEmit(out: string, atStart: bool, all: seq<Comment>, rest: seq<Comment>, indent: nat, result: string, lineStart: bool) {
    && out + Flatten(CommentPieces(all, atStart, indent)) == result + Flatten(CommentPieces(rest, lineStart, indent))
    && (atStart || all != [] <==> lineStart || rest != [])
  }

  lemma EmitOne(out: string, atStart: bool, all: seq<Comment>, rest: seq<Comment>, indent: nat, result: string, lineStart: bool)
    requires rest != [] && ToEmit(out, atStart, all, rest, indent, result, lineStart)
    ensures ToEmit(out, atStart, all, rest[1..], indent,
      result + Flatten(CommentLead(rest[0].ownLine, lineStart, indent)) + PieceText(rest[0].piece) + "\n", true)
  {
    hide Flatten, CommentPieces, CommentLead;
    CommentsUnfold(rest, lineStart, indent);
    var (a, b, c) := (Flatten(CommentLead(rest[0].ownLine, lineStart, indent)), PieceText(rest[0].piece), Flatten(CommentPieces(rest[1..], true, indent)));
    assert result + (a + b + "\n" + c) == (result + a + b + "\n") + c;
  }

  method EmitGapComments(chars: string, from: nat, to: nat, out: string, atLineStart: bool, indentLevel: nat)
    returns (result: string, lineStart: bool)
    ensures Emitted(out, atLineStart, ScanGap(GapText(chars, from, to), false), indentLevel, result, lineStart)
  {
    hide ToEmit, ScanGap, BlockLen, LineLen, CommentLead, TrimEnd, CommentPieces, Flatten;
    NothingToEmit(atLineStart, indentLevel);
    result, lineStart := out, atLineStart;
    if from >= to || to > |chars| {
      ScanOfNothing(false);
      assert out + "" == out;
      return;
    }
    var gap := chars[from..to];
    ghost var all := ScanGap(gap, false);
    var j := 0;
    var sawNewline := false;
    assert gap[0..] == gap;
    BeginToEmit(out, atLineStart, all, indentLevel);
    while j < |gap|
      invariant 0 <= j <= |gap|
      invariant ToEmit(out, atLineStart, all, ScanGap(gap[j..], sawNewline), indentLevel, result, lineStart)
    {
      var c := gap[j];
      ghost var rest := ScanGap(gap[j..], sawNewline);
      ScanStep(gap, j, sawNewline);
      if c == '/' && j + 1 < |gap| && gap[j + 1] == '/' {
        var start := j;
        j := LineCommentEnd(gap, j);
        EmitOne(out, atLineStart, all, rest, indentLevel, result, lineStart);
        result, lineStart := PushComment(result, TrimEnd(gap[start..j]), sawNewline, lineStart, indentLevel);
        sawNewline := false;
      } else if c == '/' && j + 1 < |gap| && gap[j + 1] == '*' {
        var start := j;
        j := BlockCommentEnd(gap, j);
        EmitOne(out, atLineStart, all, rest, indentLevel, result, lineStart);
        result, lineStart := PushComment(result, gap[start..j], sawNewline, lineStart, indentLevel);
        sawNewline := false;
      } else {
        if c == '\n' {
          sawNewline := true;
        }
        j := j + 1;
      }
    }
    assert gap[j..] == "";
    ScanOfNothing(sawNewline);
    AllEmitted(out, atLineStart, all, indentLevel, result, lineStart);
  }

  lemma ScanOfNothing(newline: bool)
    ensures ScanGap("", newline) == []
  {}

  lemma NothingToEmit(atStart: bool, indent: nat)
    ensures Flatten(CommentPieces([], atStart, indent)) == ""
  {}

  lemma BeginToEmit(out: string, atStart: bool, all: seq<Comment>, indent: nat)
    ensures ToEmit(out, atStart, all, all, indent, out, atStart)
  {}

  lemma AllEmitted(out: string, atStart: bool, all: seq<Comment>, indent: nat, result: string, lineStart: bool)
    requires ToEmit(out, atStart, all, [], indent, result, lineStart)
    ensures Emitted(out, atStart, all, indent, result, lineStart)
  {
    hide CommentPieces, Flatten;
    NothingToEmit(lineStart, indent);
    assert result + "" == result;
  }

  lemma ScanStep(gap: string, j: nat, newline: bool)
    requires j < |gap|
    ensures var rest := ScanGap(gap[j..], newline);
      if gap[j] == '/' && CharAt(gap, j + 1, '/') then
        var k := j + LineLen(gap[j..]);
        k <= |gap| && rest == [Comment(Line(TrimEnd(gap[j..k])), newline)] + ScanGap(gap[k..], false) && rest[1..] == ScanGap(gap[k..], false)
      else if gap[j] == '/' && CharAt(gap, j + 1, '*') then
        var k := j + BlockLen(gap[j..]);
        k <= |gap| && rest == [Comment(Block(gap[j..k]), newline)] + ScanGap(gap[k..], false) && rest[1..] == ScanGap(gap[k..], false)
      else rest == ScanGap(gap[j + 1..], newline || gap[j] == '\n')
  {
    hide ScanGap, TrimEnd, BlockLen, LineLen;
    var t := gap[j..];
    assert t[0] == gap[j] && t[1..] == gap[j + 1..];
    assert forall c :: CharAt(t, 1, c) == CharAt(gap, j + 1, c);
    if t[0] == '/' && CharAt(t, 1, '/') {
      ScanOfLine(t, newline);
      assert t[..LineLen(t)] == gap[j..j + LineLen(t)] && t[LineLen(t)..] == gap[j + LineLen(t)..];
    } else if t[0] == '/' && CharAt(t, 1, '*') {
      ScanOfBlock(t, newline);
      assert t[..BlockLen(t)] == gap[j..j + BlockLen(t)] && t[BlockLen(t)..] == gap[j + BlockLen(t)..];
    } else {
      ScanOfOther(t, newline);
    }
  }

  lemma ScanOfLine(t: string, newline: bool)
    requires t != "" && t[0] == '/' && CharAt(t, 1, '/')
    ensures LineLen(t) <= |t|
    ensures ScanGap(t, newline) == [Comment(Line(TrimEnd(t[..LineLen(t)])), newline)] + ScanGap(t[LineLen(t)..], false)
  {
    hide TrimEnd, BlockLen;
    LineLenOfSlashes(t);
  }

  lemma ScanOfBlock(t: string, newline: bool)
    requires t != "" && t[0] == '/' && CharAt(t, 1, '*')
    ensures ScanGap(t, newline) == [Comment(Block(t[..BlockLen(t)]), newline)] + ScanGap(t[BlockLen(t)..], false)
  {
    hide TrimEnd, BlockLen, LineLen;
  }

  lemma ScanOfOther(t: string, newline: bool)
    requires t != "" && !(t[0] == '/' && (CharAt(t, 1, '/') || CharAt(t, 1, '*')))
    ensures ScanGap(t, newline) == ScanGap(t[1..], newline || t[0] == '\n')
  {
    hide TrimEnd, BlockLen, LineLen;
  }

  // ----- the loop over the tokens -----

  /** The items from `i` on are to be read at `at`, where tokens `i..` stand. */
  predicate Upcoming(src: string, x: Lexed, tokens: seq<Token>, i: nat, at: nat) {
    && i <= |x.items| && |tokens| == |x.items| + 1 && at <= |src|
    && LexAll(src[at..]) == Some(Lexed(x.items[i..], x.tail))
    && tokens[i..] == TokensOf(Lexed(x.items[i..], x.tail), src, at)
  }

  lemma UpcomingBegins(src: string, x: Lexed)
    requires LexAll(src) == Some(x)
    ensures Upcoming(src, x, TokensOf(x, src, 0), 0, 0)
  {
    hide LexAll;
    assert src[0..] == src && x.items[0..] == x.items;
    TokensCount(x, src, 0);
    assert TokensOf(x, src, 0)[0..] == TokensOf(x, src, 0);
  }

  lemma {:induction false} TokensCount(x: Lexed, chars: string, at: nat)
    ensures |TokensOf(x, chars, at)| == |x.items| + 1
    decreases |x.items|
  {
    if x.items != [] {
      TokensCount(Lexed(x.items[1..], x.tail), chars, at + Width(x.items[0].gap) + |x.items[0].text|);
    }
  }

  /** What the next token tells: its kind, its text, and the comments in the gap before it. */
  lemma NextUp(src: string, x: Lexed, tokens: seq<Token>, i: nat, at: nat)
    requires Upcoming(src, x, tokens, i, at) && i < |x.items|
    ensures var span := tokens[i].span;
      && tokens[i].kind == x.items[i].kind && span.start <= span.end <= |src| && src[span.start..span.end] == x.items[i].text
      && ScanGap(GapText(src, at, span.start), false) == CommentsOf(x.items[i].gap, false)
      && Upcoming(src, x, tokens, i + 1, span.end)
  {
    hide LexAll, ScanGap, CommentsOf, Width, OnlyTrivia;
    var rest := Lexed(x.items[i..], x.tail);
    var end, others := FirstItem(src, at, rest);
    assert tokens[i] == tokens[i..][0];
    assert others.items == x.items[i + 1..];
    assert tokens[i..][1..] == tokens[i + 1..];
    GapOfItem(src, at, rest);
    var start := at + Width(rest.items[0].gap);
    assert GapText(src, at, start) == src[at..start];
  }

  lemma GapOfItem(src: string, at: nat, x: Lexed)
    requires at <= |src| && LexAll(src[at..]) == Some(x)
    ensures var gap := if x.items == [] then x.tail else x.items[0].gap;
      at + Width(gap) <= |src| && ScanGap(src[at..at + Width(gap)], false) == CommentsOf(gap, false)
  {
    hide LexToken, Trivia, Width, ScanGap, CommentsOf, OnlyTrivia;
    var gap := if x.items == [] then x.tail else x.items[0].gap;
    assert Trivia(src[at..]) == Some(gap);
    GapIsTrivia(src, at);
    var text := src[at..at + Width(gap)];
    ScanFindsComments(text, false);
    assert text == src[at..][..Width(gap)] && text[Width(gap)..] == "" && text[..Width(gap)] == text;
    assert NoTrivia("");
    TriviaIsLocal(src[at..], text);
  }

  lemma LastUp(src: string, x: Lexed, tokens: seq<Token>, at: nat)
    requires Upcoming(src, x, tokens, |x.items|, at)
    ensures var last := tokens[|x.items|];
      last.kind == Eof && ScanGap(GapText(src, at, last.span.start), false) == CommentsOf(x.tail, false)
  {
    hide LexAll, ScanGap, CommentsOf, Width, OnlyTrivia;
    var rest := Lexed(x.items[|x.items|..], x.tail);
    assert rest == Lexed([], x.tail);
    assert tokens[|x.items|] == tokens[|x.items|..][0];
    GapOfItem(src, at, rest);
    var end := at + Width(x.tail);
    assert GapText(src, at, end) == src[at..end];
  }

  lemma {:induction false} KindsAreNoEof(t: string, i: nat)
    requires LexAll(t).Some? && i < |LexAll(t).value.items|
    ensures !LexAll(t).value.items[i].kind.Eof?
    decreases |t|
  {
    hide LexToken, Trivia, Width;
    var n := Width(Trivia(t).value);
    var m := LexToken(t[n..]).value.1;
    if i > 0 {
      KindsAreNoEof(t[n + m..], i - 1);
    }
  }

  /** Break, indentation and space before a token; the level is the token's own. */
  method OpenToken(out: string, prev: Option<TokenKind>, atLineStart: bool, indentLevel: nat, kind: TokenKind) returns (result: string)
    ensures result == out + Flatten(Lead(prev, atLineStart, indentLevel, kind))
  {
    hide NeedsSpaceBefore, StartsTopLevelDecl, Flatten, Indent, Repeat;
    var lineStart := atLineStart;
    result := out;
    IndentText(indentLevel);
    NewlineAndSpace();
    assert "\n" + "\n" == "\n\n";
    ghost var broken := Flatten(LineBreak(atLineStart, indentLevel, kind));
    FlattenJoins(LineBreak(atLineStart, indentLevel, kind), Indent(indentLevel));
    if kind == Sym(RBrace) {
      if !lineStart {
        result := result + "\n";
        lineStart := true;
      }
    }
    if indentLevel == 0 && !lineStart && StartsTopLevelDecl(kind) {
      result := result + "\n";
      result := result + "\n";
      lineStart := true;
    }
    assert result == out + broken;
    var startingLine := lineStart;
    if lineStart {
      result := result + Repeat("  ", indentLevel);
    }
    if !startingLine {
      if prev.Some? {
        if NeedsSpaceBefore(prev.value, kind) {
          result := result + " ";
        }
      }
    }
  }

  /** The line break after a token. */
  method CloseToken(out: string, kind: TokenKind, indentLevel: nat) returns (result: string, lineStart: bool)
    ensures result == out + Flatten(After(Some(kind), indentLevel)) && lineStart == AtStart(Some(kind))
  {
    result, lineStart := out, false;
    NewlineAndSpace();
    if kind == Sym(LBrace) || kind == Sym(Semi) {
      result := result + "\n";
      lineStart := true;
    } else if kind == Sym(RBrace) {
      result := result + "\n";
      if indentLevel == 0 {
        result := result + "\n";
      }
      lineStart := true;
    }
  }

  method FormatSource(src: string, printFloat: string -> string) returns (r: Result<string, LexError>)
    ensures match r {
      case Success(text) => Format(src, printFloat) == Some(text)
      case Failure(error) => Format(src, printFloat) == None && Placed(error.span, src)
    }
  {
    hide LexAll, TokensOf, Placed, Written, WrittenItem, ScanGap, GapText, CommentsOf, Upcoming, After, Lead, Render, CommentPieces, Flatten;
    var lexer := new Lexer(src);
    var lexed := lexer.Run();
    if lexed.Failure? {
      return Failure(lexed.error);
    }
    var tokens := lexed.value;
    ghost var x := LexAll(src).value;
    UpcomingBegins(src, x);
    UpcomingCounts(src, x, tokens, 0, 0);
    var out := "";
    var indentLevel := 0;
    var atLineStart := true;
    var prevKind: Option<TokenKind> := None;
    var prevEnd := 0;
    var i := 0;
    assert x.items[0..] == x.items;
    while i < |tokens|
      invariant 0 <= i <= |x.items| && Upcoming(src, x, tokens, i, prevEnd)
      invariant atLineStart == AtStart(prevKind)
      invariant out + Written(Lexed(x.items[i..], x.tail), prevKind, indentLevel, printFloat) == Written(x, None, 0, printFloat)
    {
      var tok := tokens[i];
      var kind := tok.kind;
      ghost var before, level := out, indentLevel;
      if i == |x.items| {
        LastUp(src, x, tokens, prevEnd);
        WrittenLast(x, prevKind, indentLevel, printFloat);
      } else {
        NextUp(src, x, tokens, i, prevEnd);
        KindsAreNoEof(src, i);
        WrittenNext(x, i, prevKind, indentLevel, printFloat);
      }
      out, atLineStart := EmitGapComments(src, prevEnd, tok.span.start, out, atLineStart, indentLevel);
      prevEnd := tok.span.end;
      if kind == Eof {
        break;
      }
      if kind == Sym(RBrace) && indentLevel > 0 {
        indentLevel := indentLevel - 1;
      }
      out := OpenToken(out, prevKind, atLineStart, indentLevel, kind);
      out := out + Render(kind, src[tok.span.start..tok.span.end], printFloat);
      if kind == Sym(LBrace) {
        indentLevel := indentLevel + 1;
      }
      out, atLineStart := CloseToken(out, kind, indentLevel);
      ghost var item := WrittenItem(x.items[i], prevKind, level, printFloat);
      ghost var others := Written(Lexed(x.items[i + 1..], x.tail), Some(kind), indentLevel, printFloat);
      assert out == before + item by { ItemIsWritten(before, x.items[i], prevKind, level, printFloat); }
      assert before + (item + others) == (before + item) + others;
      prevKind := Some(kind);
      i := i + 1;
    }
    r := Success(TrimEnd(out) + "\n");
  }

  lemma UpcomingCounts(src: string, x: Lexed, tokens: seq<Token>, i: nat, at: nat)
    requires Upcoming(src, x, tokens, i, at)
    ensures |tokens| == |x.items| + 1 && LexAll(src[at..]).Some?
  {}

  lemma WrittenLast(x: Lexed, prev: Option<TokenKind>, indent: nat, printFloat: string -> string)
    ensures Written(Lexed(x.items[|x.items|..], x.tail), prev, indent, printFloat)
      == Flatten(CommentPieces(CommentsOf(x.tail, false), AtStart(prev), indent))
  {}

  lemma WrittenNext(x: Lexed, i: nat, prev: Option<TokenKind>, indent: nat, printFloat: string -> string)
    requires i < |x.items|
    ensures Written(Lexed(x.items[i..], x.tail), prev, indent, printFloat)
      == WrittenItem(x.items[i], prev, indent, printFloat)
         + Written(Lexed(x.items[i + 1..], x.tail), Some(x.items[i].kind), NextIndent(x.items[i].kind, indent), printFloat)
  {
    hide WrittenItem;
    assert x.items[i..][1..] == x.items[i + 1..];
  }

  lemma ItemIsWritten(out: string, item: Item, prev: Option<TokenKind>, indent: nat, printFloat: string -> string)
    ensures var cs := CommentsOf(item.gap, false);
      out + Flatten(CommentPieces(cs, AtStart(prev), indent))
      + Flatten(Lead(prev, AtStart(prev) || cs != [], OwnIndent(item.kind, indent), item.kind))
      + Render(item.kind, item.text, printFloat)
      + Flatten(After(Some(item.kind), NextIndent(item.kind, indent)))
      == out + WrittenItem(item, prev, indent, printFloat)
  {
    hide CommentsOf, After, Lead, Render, CommentPieces, Flatten;
  }
}
