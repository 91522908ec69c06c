/** Ways to write a text inside quotes, and that string and html literals read each of them back as that text. */
module Quoting {
  import opened Lexing
  import opened Tokens
  import opened Wrappers

  /** How one character is written: as it is, with a letter after a backslash, or by its code, each hexadecimal
      digit in lower or in upper case. */
  datatype Spelling = Raw | Short | Code(upper: seq<bool>)

  const LOWER := "0123456789abcdef"
  const UPPER := "0123456789ABCDEF"

  function CodeDigit(code: nat, unit: nat, upper: bool): char
    requires unit > 0
  {
    if upper then UPPER[code / unit % 16] else LOWER[code / unit % 16]
  }

  function CodeDigits(code: nat, upper: seq<bool>): (s: string)
    requires |upper| == 4
    ensures |s| == 4
  {
    [CodeDigit(code, 4096, upper[0]), CodeDigit(code, 256, upper[1]), CodeDigit(code, 16, upper[2]), CodeDigit(code, 1, upper[3])]
  }

  predicate MayWrite(c: char, how: Spelling) {
    match how
    case Raw => c != '"' && c != '\\'
    case Short => c == '\n' || c == '\t' || c == '"' || c == '\\'
    case Code(upper) => |upper| == 4 && c as int < 0x1_0000
  }

  function Written(c: char, how: Spelling): string
    requires MayWrite(c, how)
  {
    match how
    case Raw => [c]
    case Short => if c == '\n' then "\\n" else if c == '\t' then "\\t" else ['\\', c]
    case Code(upper) => "\\u" + CodeDigits(c as int, upper)
  }

  predicate MayWriteAll(s: string, hows: seq<Spelling>) { |hows| == |s| && forall i | 0 <= i < |s| :: MayWrite(s[i], hows[i]) }

  function Quoted(s: string, hows: seq<Spelling>): string
    requires MayWriteAll(s, hows)
  {
    if s == "" then "" else Written(s[0], hows[0]) + Quoted(s[1..], hows[1..])
  }

  lemma DigitIsRead(d: nat, upper: bool)
    requires d < 16
    ensures var c := if upper then UPPER[d] else LOWER[d]; IsHexDigit(c) && HexValue(c) == d
  {}

  lemma CodeInDigits(code: nat)
    requires code < 0x1_0000
    ensures 4096 * (code / 4096 % 16) + 256 * (code / 256 % 16) + 16 * (code / 16 % 16) + code / 1 % 16 == code
  {
    assert code / 4096 < 16;
    assert code / 256 == 16 * (code / 4096) + code / 256 % 16 by { Nested(code, 4096, 256); }
    assert code / 16 == 16 * (code / 256) + code / 16 % 16 by { Nested(code, 256, 16); }
  }

  lemma Nested(code: nat, big: nat, unit: nat)
    requires unit > 0 && big == 16 * unit && (unit == 256 || unit == 16)
    ensures code / big == code / unit / 16
  {}

  lemma CodeIsRead(c: char, upper: seq<bool>, rest: string)
    requires |upper| == 4 && c as int < 0x1_0000
    ensures UnicodeEscape(CodeDigits(c as int, upper) + rest) == Some(c)
  {
    var code := c as int;
    var t := CodeDigits(code, upper) + rest;
    DigitIsRead(code / 4096 % 16, upper[0]);
    DigitIsRead(code / 256 % 16, upper[1]);
    DigitIsRead(code / 16 % 16, upper[2]);
    DigitIsRead(code / 1 % 16, upper[3]);
    CodeInDigits(code);
    hide IsHexDigit, HexValue;
    assert t[0] == CodeDigits(code, upper)[0] && t[1] == CodeDigits(code, upper)[1];
    assert t[2] == CodeDigits(code, upper)[2] && t[3] == CodeDigits(code, upper)[3];
  }

  lemma RawIsRead(c: char, rest: string)
    requires c != '"' && c != '\\'
    ensures StringBody([c] + rest) == Shifted([c], StringBody(rest), 1)
  {
    hide StringEscape;
    assert ([c] + rest)[1..] == rest;
  }

  /** An escape and what it is read as. */
  lemma EscapeIsRead(e: string, c: char, rest: string)
    requires StringEscape(e + rest) == Some((c, |e|))
    ensures StringBody("\\" + e + rest) == Shifted([c], StringBody(rest), 1 + |e|)
  {
    hide StringEscape;
    var t := "\\" + e + rest;
    assert t[1..] == e + rest && t[1 + |e|..] == rest;
  }

  lemma ShortIsRead(c: char, rest: string)
    requires MayWrite(c, Short)
    ensures StringEscape(Written(c, Short)[1..] + rest) == Some((c, 1)) && Written(c, Short) == "\\" + Written(c, Short)[1..]
  {
    hide UnicodeEscape;
  }

  lemma CodeIsEscape(c: char, upper: seq<bool>, rest: string)
    requires MayWrite(c, Code(upper))
    ensures StringEscape("u" + CodeDigits(c as int, upper) + rest) == Some((c, 5))
  {
    CodeIsRead(c, upper, rest);
    hide UnicodeEscape, CodeDigits;
    assert ("u" + CodeDigits(c as int, upper) + rest)[1..] == CodeDigits(c as int, upper) + rest;
  }

  /** However a character is written, it is read as itself, and what comes after it is read next. */
  lemma WrittenIsRead(c: char, how: Spelling, rest: string)
    requires MayWrite(c, how)
    ensures StringBody(Written(c, how) + rest) == Shifted([c], StringBody(rest), |Written(c, how)|)
  {
    hide StringBody, StringEscape, CodeDigits;
    match how
    case Raw => RawIsRead(c, rest);
    case Short =>
      ShortIsRead(c, rest);
      EscapeIsRead(Written(c, Short)[1..], c, rest);
    case Code(upper) =>
      CodeIsEscape(c, upper, rest);
      EscapeIsRead("u" + CodeDigits(c as int, upper), c, rest);
      assert "\\u" + CodeDigits(c as int, upper) == "\\" + ("u" + CodeDigits(c as int, upper));
  }

  /** Every way to write a text inside quotes is read as that text, */
  lemma {:induction false} QuotedIsRead(s: string, hows: seq<Spelling>, rest: string)
    requires MayWriteAll(s, hows)
    ensures StringBody(Quoted(s, hows) + "\"" + rest) == Some((s, |Quoted(s, hows)| + 1))
  {
    hide StringEscape, MayWrite, Written;
    if s == "" {
      assert (Quoted(s, hows) + "\"" + rest)[0] == '"';
    } else {
      QuotedIsRead(s[1..], hows[1..], rest);
      hide StringBody;
      var first, others := Written(s[0], hows[0]), Quoted(s[1..], hows[1..]);
      assert Quoted(s, hows) == first + others;
      hide Quoted;
      assert first + others + "\"" + rest == first + (others + "\"" + rest);
      WrittenIsRead(s[0], hows[0], others + "\"" + rest);
      assert [s[0]] + s[1..] == s;
    }
  }

  lemma HexDigitIs(c: char) returns (upper: bool)
    requires IsHexDigit(c)
    ensures HexValue(c) < 16 && c == if upper then UPPER[HexValue(c)] else LOWER[HexValue(c)]
  {
    upper := 'A' <= c <= 'F';
    assert !upper ==> c == LOWER[HexValue(c)];
  }

  lemma DigitsOfCode(a: nat, b: nat, c: nat, d: nat)
    requires a < 16 && b < 16 && c < 16 && d < 16
    ensures var code := 4096 * a + 256 * b + 16 * c + d;
      code < 0x1_0000 && code / 4096 % 16 == a && code / 256 % 16 == b && code / 16 % 16 == c && code / 1 % 16 == d
  {
    var code := 4096 * a + 256 * b + 16 * c + d;
    assert code / 256 == 16 * a + b && code / 16 == 16 * (16 * a + b) + c;
  }

  lemma CodeIsWritten(t: string) returns (upper: seq<bool>)
    requires UnicodeEscape(t).Some?
    ensures |upper| == 4 && UnicodeEscape(t).value as int < 0x1_0000
    ensures |t| >= 4 && t[..4] == CodeDigits(UnicodeEscape(t).value as int, upper)
  {
    var u0 := HexDigitIs(t[0]);
    var u1 := HexDigitIs(t[1]);
    var u2 := HexDigitIs(t[2]);
    var u3 := HexDigitIs(t[3]);
    upper := [u0, u1, u2, u3];
    DigitsOfCode(HexValue(t[0]), HexValue(t[1]), HexValue(t[2]), HexValue(t[3]));
    hide IsHexDigit, HexValue;
  }

  lemma EscapeIsWritten(t: string) returns (how: Spelling)
    requires StringEscape(t).Some?
    ensures MayWrite(StringEscape(t).value.0, how)
    ensures "\\" + t[..StringEscape(t).value.1] == Written(StringEscape(t).value.0, how)
  {
    hide UnicodeEscape, CodeDigits;
    if t[0] == 'u' {
      var upper := CodeIsWritten(t[1..]);
      how := Code(upper);
      assert t[..5] == "u" + t[1..][..4];
    } else {
      how := Short;
    }
  }

  /** and whatever is read as a text is one of these ways to write it. */
  lemma {:induction false} ReadIsQuoted(t: string) returns (hows: seq<Spelling>)
    requires StringBody(t).Some?
    ensures MayWriteAll(StringBody(t).value.0, hows)
    ensures t[..StringBody(t).value.1] == Quoted(StringBody(t).value.0, hows) + "\""
    decreases |t|
  {
    hide StringEscape, MayWrite, Written;
    if t[0] == '"' {
      hows := [];
    } else if t[0] == '\\' {
      var n := 1 + StringEscape(t[1..]).value.1;
      var how := EscapeIsWritten(t[1..]);
      var rest := ReadIsQuoted(t[n..]);
      hows := QuotedWith(t, n, StringEscape(t[1..]).value.0, how, StringBody(t[n..]).value.0, rest, StringBody(t[n..]).value.1);
    } else {
      var rest := ReadIsQuoted(t[1..]);
      RawIsWritten(t[0]);
      hows := QuotedWith(t, 1, t[0], Raw, StringBody(t[1..]).value.0, rest, StringBody(t[1..]).value.1);
    }
  }

  lemma RawIsWritten(c: char)
    requires c != '"' && c != '\\'
    ensures MayWrite(c, Raw) && Written(c, Raw) == [c]
  {}

  lemma QuotedWith(t: string, n: nat, c: char, how: Spelling, s: string, rest: seq<Spelling>, m: nat) returns (hows: seq<Spelling>)
    requires n + m <= |t| && MayWrite(c, how) && MayWriteAll(s, rest)
    requires t[..n] == Written(c, how) && t[n..][..m] == Quoted(s, rest) + "\""
    ensures MayWriteAll([c] + s, hows) && t[..n + m] == Quoted([c] + s, hows) + "\""
  {
    hide MayWrite, Written;
    hows := [how] + rest;
    assert t[..n + m] == t[..n] + t[n..][..m];
    assert ([c] + s)[1..] == s && hows[1..] == rest;
  }

  // ----- html literals -----

  predicate MayWriteInHtml(c: char, escaped: bool) {
    if escaped then c == '`' || c == '$' || c == '\\' || c == '\n' || c == '\t' else c != '`' && c != '\\'
  }

  function WrittenInHtml(c: char, escaped: bool): string {
    if !escaped then [c] else if c == '\n' then "\\n" else if c == '\t' then "\\t" else ['\\', c]
  }

  function HtmlQuoted(s: string, escaped: seq<bool>): string
    requires |escaped| == |s|
  {
    if s == "" then "" else WrittenInHtml(s[0], escaped[0]) + HtmlQuoted(s[1..], escaped[1..])
  }

  /** A dollar sign that is not escaped is no text where a brace comes next. */
  predicate MayQuoteHtml(s: string, escaped: seq<bool>, rest: string) {
    && |escaped| == |s|
    && (s != "" ==>
      && MayWriteInHtml(s[0], escaped[0])
      && (s[0] == '$' && !escaped[0] ==> !StartsWith(HtmlQuoted(s[1..], escaped[1..]) + rest, '{'))
      && MayQuoteHtml(s[1..], escaped[1..], rest))
  }

  /** The source of an html literal after its opening backquote; `expr` is an interpolation with its closing brace. */
  datatype HtmlSource =
    | End(text: string, escaped: seq<bool>)
    | Then(text: string, escaped: seq<bool>, expr: string, kinds: seq<TokenKind>, next: HtmlSource)

  predicate Fits(h: HtmlSource) { |h.escaped| == |h.text| && (h.Then? ==> Fits(h.next)) }

  function SourceText(h: HtmlSource): string
    requires Fits(h)
  {
    match h
    case End(text, escaped) => HtmlQuoted(text, escaped) + "`"
    case Then(text, escaped, expr, _, next) => HtmlQuoted(text, escaped) + ("${" + (expr + SourceText(next)))
  }

  function SourceParts(h: HtmlSource): seq<HtmlPart> {
    match h
    case End(text, _) => [Text(text)]
    case Then(text, _, _, kinds, next) => [Text(text), Expr(kinds)] + SourceParts(next)
  }

  /** The literal may be written so before `rest`. */
  predicate IsSource(h: HtmlSource, rest: string) {
    && Fits(h)
    && match h {
      case End(text, escaped) => MayQuoteHtml(text, escaped, "`" + rest)
      case Then(text, escaped, expr, kinds, next) =>
        && kinds != [] && IsSource(next, rest)
        && HtmlExpr(expr + (SourceText(next) + rest), 0) == Some((kinds, |expr|))
        && MayQuoteHtml(text, escaped, "${" + (expr + (SourceText(next) + rest)))
    }
  }

  lemma HtmlCharIsRead(c: char, escaped: bool, rest: string, before: string)
    requires MayWriteInHtml(c, escaped) && (c == '$' && !escaped ==> !StartsWith(rest, '{'))
    ensures HtmlBody(WrittenInHtml(c, escaped) + rest, before) == Shifted([], HtmlBody(rest, before + [c]), |WrittenInHtml(c, escaped)|)
  {
    hide HtmlExpr;
    var t := WrittenInHtml(c, escaped) + rest;
    assert t[|WrittenInHtml(c, escaped)|..] == rest;
    if !escaped && rest != "" { assert t[1] == rest[0]; }
  }

  lemma {:induction false} HtmlTextIsRead(s: string, escaped: seq<bool>, rest: string, before: string)
    requires MayQuoteHtml(s, escaped, rest)
    ensures HtmlBody(HtmlQuoted(s, escaped) + rest, before) == Shifted([], HtmlBody(rest, before + s), |HtmlQuoted(s, escaped)|)
  {
    hide HtmlBody, MayWriteInHtml, WrittenInHtml;
    if s == "" {
      assert "" + rest == rest && before + "" == before;
      NothingShifts(HtmlBody(rest, before));
    } else {
      var first, others := WrittenInHtml(s[0], escaped[0]), HtmlQuoted(s[1..], escaped[1..]);
      HtmlTextIsRead(s[1..], escaped[1..], rest, before + [s[0]]);
      HtmlCharIsRead(s[0], escaped[0], others + rest, before);
      assert first + others + rest == first + (others + rest);
      assert before + [s[0]] + s[1..] == before + s;
      ShiftedTwice(HtmlBody(rest, before + s), |others|, |first|);
    }
  }

  lemma NothingShifts(r: Option<(seq<HtmlPart>, nat)>)
    ensures Shifted([], r, 0) == r
  {
    if r.Some? { assert [] + r.value.0 == r.value.0; }
  }

  lemma ShiftedTwice(r: Option<(seq<HtmlPart>, nat)>, m: nat, n: nat)
    ensures Shifted([], Shifted([], r, m), n) == Shifted([], r, n + m)
  {
    if r.Some? { assert [] + ([] + r.value.0) == [] + r.value.0; }
  }

  lemma NothingBefore(parts: seq<HtmlPart>)
    ensures [] + parts == parts
  {}

  lemma LiteralEnds(rest: string, text: string)
    ensures HtmlBody("`" + rest, text) == Some(([Text(text)], 1))
  {}

  lemma BodyUnfolds(t: string, text: string)
    requires t != ""
    ensures HtmlBody(t, text)
      == if t[0] == '`' then Some(([Text(text)], 1))
         else if t[0] == '\\' then
           if HtmlEscape(t).None? then None else Shifted([], HtmlBody(t[2..], text + [HtmlEscape(t).value]), 2)
         else if t[0] == '$' && CharAt(t, 1, '{') then
           if HtmlExpr(t[2..], 0).None? || HtmlExpr(t[2..], 0).value.0 == [] then None
           else Shifted([Text(text), Expr(HtmlExpr(t[2..], 0).value.0)], HtmlBody(t[2 + HtmlExpr(t[2..], 0).value.1..], ""), 2 + HtmlExpr(t[2..], 0).value.1)
         else Shifted([], HtmlBody(t[1..], text + [t[0]]), 1)
  {
    hide HtmlExpr, HtmlEscape;
  }

  lemma LiteralGoesOn(expr: string, kinds: seq<TokenKind>, rest: string, text: string)
    requires HtmlExpr(expr + rest, 0) == Some((kinds, |expr|)) && kinds != []
    ensures HtmlBody("${" + (expr + rest), text) == Shifted([Text(text), Expr(kinds)], HtmlBody(rest, ""), 2 + |expr|)
  {
    var open := "${";
    assert open[0] == '$' && open[1] == '{';
    AfterTwo(open, expr, rest);
    hide HtmlExpr, HtmlBody;
    BodyUnfolds(open + (expr + rest), text);
  }

  lemma AfterTwo(a: string, b: string, c: string)
    requires |a| == 2
    ensures var t := a + (b + c); t[0] == a[0] && t[1] == a[1] && t[2..] == b + c && t[2 + |b|..] == c
  {}

  /** However its texts are written, an html literal is read as its texts and interpolations, */
  lemma {:induction false} SourceIsRead(h: HtmlSource, rest: string)
    requires IsSource(h, rest)
    ensures HtmlBody(SourceText(h) + rest, "") == Some((SourceParts(h), |SourceText(h)|))
    decreases h
  {
    hide HtmlBody, HtmlExpr, HtmlQuoted, MayQuoteHtml;
    var quoted := HtmlQuoted(h.text, h.escaped);
    match h
    case End(text, escaped) =>
      assert quoted + "`" + rest == quoted + ("`" + rest);
      HtmlTextIsRead(text, escaped, "`" + rest, "");
      assert "" + text == text;
      LiteralEnds(rest, text);
      NothingBefore([Text(text)]);
    case Then(text, escaped, expr, kinds, next) =>
      var others := SourceText(next) + rest;
      assert SourceText(h) + rest == quoted + ("${" + (expr + others));
      HtmlTextIsRead(text, escaped, "${" + (expr + others), "");
      assert "" + text == text;
      LiteralGoesOn(expr, kinds, others, text);
      SourceIsRead(next, rest);
      NothingBefore([Text(text), Expr(kinds)] + SourceParts(next));
  }

  /** The source with one more character at its head. */
  function WithHead(c: char, escaped: bool, h: HtmlSource): HtmlSource { h.(text := [c] + h.text, escaped := [escaped] + h.escaped) }

  /** What comes after the first text. */
  function AfterText(h: HtmlSource): string
    requires Fits(h)
  {
    match h
    case End(_, _) => "`"
    case Then(_, _, expr, _, next) => "${" + (expr + SourceText(next))
  }

  lemma JoinsLater(a: string, b: string, c: string, rest: string)
    ensures a + (b + c) + rest == a + (b + (c + rest))
  {}

  lemma TextBefore(h: HtmlSource, rest: string)
    requires Fits(h)
    ensures SourceText(h) + rest == HtmlQuoted(h.text, h.escaped) + (AfterText(h) + rest)
  {
    hide HtmlQuoted;
  }

  lemma MayQuoteBefore(h: HtmlSource, rest: string)
    requires Fits(h)
    ensures IsSource(h, rest)
      <==> MayQuoteHtml(h.text, h.escaped, AfterText(h) + rest) && (h.Then? ==>
        h.kinds != [] && IsSource(h.next, rest) && HtmlExpr(h.expr + (SourceText(h.next) + rest), 0) == Some((h.kinds, |h.expr|)))
  {
    hide HtmlQuoted, MayQuoteHtml, HtmlExpr;
    if h.Then? { JoinsLater("${", h.expr, SourceText(h.next), rest); }
  }

  lemma QuotedWithHead(c: char, escaped: bool, s: string, flags: seq<bool>, rest: string)
    requires MayQuoteHtml(s, flags, rest) && MayWriteInHtml(c, escaped)
    requires c == '$' && !escaped ==> !StartsWith(HtmlQuoted(s, flags) + rest, '{')
    ensures MayQuoteHtml([c] + s, [escaped] + flags, rest)
    ensures HtmlQuoted([c] + s, [escaped] + flags) == WrittenInHtml(c, escaped) + HtmlQuoted(s, flags)
  {
    hide MayWriteInHtml, WrittenInHtml;
    assert ([c] + s)[1..] == s && ([escaped] + flags)[1..] == flags;
  }

  lemma HeadIsSource(c: char, escaped: bool, h: HtmlSource, rest: string)
    requires IsSource(h, rest) && MayWriteInHtml(c, escaped) && (c == '$' && !escaped ==> !StartsWith(SourceText(h) + rest, '{'))
    ensures IsSource(WithHead(c, escaped, h), rest)
    ensures SourceText(WithHead(c, escaped, h)) == WrittenInHtml(c, escaped) + SourceText(h)
    ensures SourceParts(WithHead(c, escaped, h))[1..] == SourceParts(h)[1..]
  {
    hide MayWriteInHtml, WrittenInHtml, HtmlExpr, MayQuoteHtml, HtmlQuoted;
    var g := WithHead(c, escaped, h);
    assert Fits(g);
    assert AfterText(g) == AfterText(h);
    TextBefore(h, rest);
    MayQuoteBefore(h, rest);
    MayQuoteBefore(g, rest);
    QuotedWithHead(c, escaped, h.text, h.escaped, AfterText(h) + rest);
    HeadOfText(c, escaped, h);
  }

  lemma TextAndAfter(h: HtmlSource)
    requires Fits(h)
    ensures SourceText(h) == HtmlQuoted(h.text, h.escaped) + AfterText(h)
  {
    hide HtmlQuoted;
  }

  lemma HeadOfText(c: char, escaped: bool, h: HtmlSource)
    requires Fits(h)
    requires HtmlQuoted([c] + h.text, [escaped] + h.escaped) == WrittenInHtml(c, escaped) + HtmlQuoted(h.text, h.escaped)
    ensures SourceText(WithHead(c, escaped, h)) == WrittenInHtml(c, escaped) + SourceText(h)
    ensures SourceParts(WithHead(c, escaped, h))[1..] == SourceParts(h)[1..]
  {
    hide HtmlQuoted, WrittenInHtml;
    var g := WithHead(c, escaped, h);
    assert AfterText(g) == AfterText(h);
    TextAndAfter(g);
    TextAndAfter(h);
    hide SourceText, AfterText;
    assert WrittenInHtml(c, escaped) + (HtmlQuoted(h.text, h.escaped) + AfterText(h))
      == WrittenInHtml(c, escaped) + HtmlQuoted(h.text, h.escaped) + AfterText(h);
  }

  /** What is read at the head of `t`, after the text `before`, is the source `h`. */
  ghost predicate IsReadFrom(h: HtmlSource, t: string, before: string) {
    && HtmlBody(t, before).Some?
    && var n := HtmlBody(t, before).value.1;
    && IsSource(h, t[n..]) && SourceText(h) == t[..n]
    && HtmlBody(t, before).value.0 == [Text(before + h.text)] + SourceParts(h)[1..]
  }

  /** and whatever is read as an html literal is one of these ways to write it. */
  lemma {:induction false} LiteralIsSource(t: string, before: string) returns (h: HtmlSource)
    requires HtmlBody(t, before).Some?
    ensures IsReadFrom(h, t, before)
    decreases |t|
  {
    assert t != "";
    BodyUnfolds(t, before);
    hide HtmlExpr, HtmlBody, IsReadFrom, HtmlEscape;
    if t[0] == '`' {
      h := EndIsSource(t, before);
    } else if t[0] == '\\' {
      EscapedInHtml(t);
      var rest := LiteralIsSource(t[2..], before + [HtmlEscape(t).value]);
      h := LongerSource(t, 2, HtmlEscape(t).value, true, before, rest);
    } else if t[0] == '$' && CharAt(t, 1, '{') {
      var next := LiteralIsSource(t[2 + HtmlExpr(t[2..], 0).value.1..], "");
      h := NextSource(t, HtmlExpr(t[2..], 0).value.1, next, before);
    } else {
      RawInHtml(t);
      var rest := LiteralIsSource(t[1..], before + [t[0]]);
      h := LongerSource(t, 1, t[0], false, before, rest);
    }
  }

  lemma EscapedInHtml(t: string)
    requires HtmlEscape(t).Some? && t[0] == '\\'
    ensures |t| >= 2 && MayWriteInHtml(HtmlEscape(t).value, true) && t[..2] == WrittenInHtml(HtmlEscape(t).value, true)
  {}

  lemma RawInHtml(t: string)
    requires t != "" && t[0] != '`' && t[0] != '\\'
    ensures MayWriteInHtml(t[0], false) && t[..1] == WrittenInHtml(t[0], false)
  {}

  lemma EndIsSource(t: string, before: string) returns (h: HtmlSource)
    requires StartsWith(t, '`')
    ensures IsReadFrom(h, t, before)
  {
    h := End("", []);
    BodyUnfolds(t, before);
    hide HtmlBody;
    assert before + "" == before && t[..1] == "`";
    assert SourceText(h) == "`" && SourceParts(h)[1..] == [];
  }

  lemma LongerSource(t: string, n: nat, c: char, escaped: bool, before: string, rest: HtmlSource) returns (h: HtmlSource)
    requires n <= |t| && MayWriteInHtml(c, escaped) && t[..n] == WrittenInHtml(c, escaped)
    requires IsReadFrom(rest, t[n..], before + [c]) && (c == '$' && !escaped ==> !StartsWith(t[n..], '{'))
    requires HtmlBody(t, before) == Shifted([], HtmlBody(t[n..], before + [c]), n)
    ensures IsReadFrom(h, t, before)
  {
    hide HtmlBody, MayWriteInHtml, WrittenInHtml, IsSource, SourceText, SourceParts;
    var m := HtmlBody(t[n..], before + [c]).value.1;
    h := WithHead(c, escaped, rest);
    assert t[n..][..m] + t[n..][m..] == t[n..];
    HeadIsSource(c, escaped, rest, t[n..][m..]);
    assert t[n..][m..] == t[n + m..] && t[..n] + t[n..][..m] == t[..n + m];
    assert before + [c] + rest.text == before + ([c] + rest.text);
    NothingBefore(HtmlBody(t[n..], before + [c]).value.0);
  }

  lemma NextSource(t: string, k: nat, next: HtmlSource, before: string) returns (h: HtmlSource)
    requires 2 + k <= |t| && t[0] == '$' && t[1] == '{' && HtmlExpr(t[2..], 0).Some? && HtmlExpr(t[2..], 0).value.0 != []
    requires k == HtmlExpr(t[2..], 0).value.1 && IsReadFrom(next, t[2 + k..], "")
    ensures IsReadFrom(h, t, before)
  {
    BodyUnfolds(t, before);
    hide HtmlBody, HtmlExpr, IsSource, SourceText, SourceParts;
    var m := HtmlBody(t[2 + k..], "").value.1;
    h := Then("", [], t[2..2 + k], HtmlExpr(t[2..], 0).value.0, next);
    NextIsSource(t, k, m, h);
    PartsOfNext(before, h, HtmlBody(t[2 + k..], "").value.0);
  }

  lemma NextIsSource(t: string, k: nat, m: nat, h: HtmlSource)
    requires 2 + k + m <= |t| && t[0] == '$' && t[1] == '{' && HtmlExpr(t[2..], 0).Some? && HtmlExpr(t[2..], 0).value.0 != []
    requires k == HtmlExpr(t[2..], 0).value.1
    requires h.Then? && h == Then("", [], t[2..2 + k], HtmlExpr(t[2..], 0).value.0, h.next)
    requires IsSource(h.next, t[2 + k..][m..]) && SourceText(h.next) == t[2 + k..][..m]
    ensures IsSource(h, t[2 + k + m..]) && SourceText(h) == t[..2 + k + m]
  {
    hide HtmlExpr;
    var rest := t[2 + k + m..];
    assert t[2 + k..][m..] == rest;
    assert t[2 + k..][..m] + rest == t[2 + k..];
    assert t[2..2 + k] + t[2 + k..] == t[2..];
    assert "${" + (t[2..2 + k] + t[2 + k..][..m]) == t[..2 + k + m];
    assert "" + ("${" + (t[2..2 + k] + SourceText(h.next))) == "${" + (t[2..2 + k] + SourceText(h.next));
  }

  lemma PartsOfNext(before: string, h: HtmlSource, parts: seq<HtmlPart>)
    requires h.Then? && h.text == "" && parts == [Text("" + h.next.text)] + SourceParts(h.next)[1..]
    ensures [Text(before), Expr(h.kinds)] + parts == [Text(before + h.text)] + SourceParts(h)[1..]
  {
    assert "" + h.next.text == h.next.text && before + "" == before;
    assert parts == SourceParts(h.next);
  }

  // ----- interpolations -----

  /** An interpolation ends at the first closing brace that closes none of its own opening ones. */
  lemma {:induction false} ExprEndsAtItsBrace(t: string, depth: nat)
    requires HtmlExpr(t, depth).Some?
    ensures var (kinds, n) := HtmlExpr(t, depth).value;
      && Braces(kinds) + depth == 0 && (forall j | 0 <= j <= |kinds| :: Braces(kinds[..j]) + depth >= 0)
      && n > 0 && t[n - 1] == '}'
    decreases |t|
  {
    hide NextToken, Braces;
    var (kinds, n) := HtmlExpr(t, depth).value;
    var (kind, m) := NextToken(t).value;
    NothingInBraces();
    if kind == Sym(RBrace) && depth == 0 {
      BraceIsLast(t);
      assert kinds[..0] == [];
    } else {
      ExprEndsAtItsBrace(t[m..], DepthAfter(kind, depth));
      var rest := HtmlExpr(t[m..], DepthAfter(kind, depth)).value.0;
      BracesAdd(kind, rest);
      forall j | 0 <= j <= |kinds| ensures Braces(kinds[..j]) + depth >= 0 {
        if j > 0 {
          assert kinds[..j] == [kind] + rest[..j - 1];
          BracesAdd(kind, rest[..j - 1]);
        } else {
          assert kinds[..0] == [];
        }
      }
    }
  }

  lemma NothingInBraces()
    ensures Braces([]) == 0
  {}

  lemma BraceIsLast(t: string)
    requires NextToken(t).Some? && NextToken(t).value.0 == Sym(RBrace)
    ensures NextToken(t).value.1 > 0 && t[NextToken(t).value.1 - 1] == '}'
  {
    hide Trivia, Width, LexNumber, HtmlBody, StringBody, WordLen, KeywordFromStr;
    var n := Width(Trivia(t).value);
    if n < |t| {
      var u := t[n..];
      assert u[0] == t[n];
      NumberIsNoBrace(u);
    }
  }

  lemma NumberIsNoBrace(t: string)
    requires t != "" && LexToken(t).Some? && LexToken(t).value.0 == Sym(RBrace)
    ensures t[0] == '}' && LexToken(t).value.1 == 1
  {
    hide HtmlBody, StringBody, WordLen, KeywordFromStr;
  }
}
