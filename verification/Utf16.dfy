/** Positions as the language server protocol counts them (`lsp.rs`): lines and columns from 0, columns in the code
    units of section 2.1 of RFC 2781. */
module Utf16 {
  datatype Position = Position(line: nat, col: nat)

  /** `char::len_utf16`. */
  function Units(c: char): nat { if c as int < 0x1_0000 then 1 else 2 }

  /** The code units of a character: itself, or a high and a low surrogate with ten bits each. */
  function Encoded(c: char): seq<nat> {
    var code := c as int;
    if code < 0x1_0000 then [code]
    else [0xd800 + (code - 0x1_0000) / 0x400, 0xdc00 + (code - 0x1_0000) % 0x400]
  }

  /** Section 2.2 of RFC 2781: a unit outside the surrogates is a character, a high and a low one together are one. */
  function Decoded(units: seq<nat>): nat {
    if |units| == 2 && 0xd800 <= units[0] < 0xdc00 <= units[1] < 0xe000 then
      0x1_0000 + 0x400 * (units[0] - 0xd800) + (units[1] - 0xdc00)
    else if |units| == 1 && units[0] < 0x1_0000 && !(0xd800 <= units[0] < 0xe000) then units[0]
    else 0x11_0000
  }

  /** The columns count the units of the encoding, and it can be decoded. */
  lemma UnitsAreEncoded(c: char)
    ensures |Encoded(c)| == Units(c) && Decoded(Encoded(c)) == c as int
    ensures forall u | u in Encoded(c) :: u < 0x1_0000
  {}

  /** The position reached by reading `s`. */
  function PositionAfter(s: string): Position {
    if s == "" then Position(0, 0)
    else
      var p := PositionAfter(s[..|s| - 1]);
      if s[|s| - 1] == '\n' then Position(p.line + 1, 0) else Position(p.line, p.col + Units(s[|s| - 1]))
  }

  function At(s: string, i: nat): Position
    requires i <= |s|
  {
    PositionAfter(s[..i])
  }

  predicate Before(p: Position, q: Position) { p.line < q.line || (p.line == q.line && p.col < q.col) }

  lemma Next(s: string, i: nat)
    requires i < |s|
    ensures At(s, i + 1) == if s[i] == '\n' then Position(At(s, i).line + 1, 0) else Position(At(s, i).line, At(s, i).col + Units(s[i]))
  {
    assert s[..i + 1][..i] == s[..i];
  }

  /** A later offset has a later position; on the same line only if no newline comes between. */
  lemma {:induction false} PositionGrows(s: string, i: nat, j: nat)
    requires i < j <= |s|
    ensures Before(At(s, i), At(s, j))
    ensures At(s, i).line == At(s, j).line ==> s[i] != '\n'
    decreases j - i
  {
    hide At;
    Next(s, i);
    if i + 1 < j {
      PositionGrows(s, i + 1, j);
    }
  }

  method Utf16Position(chars: string, idx: nat) returns (line: nat, colUnits: nat)
    requires idx <= |chars|
    ensures Position(line, colUnits) == At(chars, idx)
  {
    line, colUnits := 0, 0;
    for i := 0 to idx
      invariant Position(line, colUnits) == At(chars, i)
    {
      Next(chars, i);
      var c := chars[i];
      if c == '\n' {
        line := line + 1;
        colUnits := 0;
      } else {
        colUnits := colUnits + Units(c);
      }
    }
  }

  /** The search for a position ends at `i`: on its line, at or past its column or at the end of the line. */
  predicate Stops(s: string, target: Position, i: nat) {
    i == |s| || (i < |s| && At(s, i).line == target.line && (At(s, i).col >= target.col || s[i] == '\n'))
  }

  /** The first offset at which the search ends. */
  predicate IsOffset(s: string, target: Position, o: nat) {
    o <= |s| && Stops(s, target, o) && forall i | 0 <= i < o :: !Stops(s, target, i)
  }

  method CharOffsetFromUtf16Position(source: string, targetLine: nat, targetCol: nat) returns (offset: nat)
    ensures IsOffset(source, Position(targetLine, targetCol), offset)
  {
    var line: nat, colUnits: nat := 0, 0;
    for idx := 0 to |source|
      invariant Position(line, colUnits) == At(source, idx)
      invariant forall i | 0 <= i < idx :: !Stops(source, Position(targetLine, targetCol), i)
    {
      Next(source, idx);
      if line == targetLine && colUnits >= targetCol {
        return idx;
      }
      var c := source[idx];
      if c == '\n' {
        if line == targetLine {
          return idx;
        }
        line := line + 1;
        colUnits := 0;
      } else {
        colUnits := colUnits + Units(c);
      }
    }
    return |source|;
  }

  /** The position of an offset leads back to it, and to no other. */
  lemma OffsetOfPosition(s: string, idx: nat, o: nat)
    requires idx <= |s|
    ensures IsOffset(s, At(s, idx), o) <==> o == idx
  {
    hide At;
    forall i: nat | i < idx ensures !Stops(s, At(s, idx), i) {
      PositionGrows(s, i, idx);
    }
    assert Stops(s, At(s, idx), idx);
  }

  /** Any line and column lead to an offset in the text: on that line if there is one, and then not before the column
      unless the line ends there, nor a whole character past it; else to the end of the text. */
  lemma OffsetIsClamped(s: string, target: Position, o: nat)
    requires IsOffset(s, target, o)
    ensures o <= |s|
    ensures target.line > At(s, |s|).line ==> o == |s|
    ensures target.line <= At(s, |s|).line ==> At(s, o).line == target.line
    ensures target.line <= At(s, |s|).line ==> At(s, o).col >= target.col || o == |s| || s[o] == '\n'
    ensures target.line <= At(s, |s|).line && o > 0 && s[o - 1] != '\n' ==> At(s, o - 1).col < target.col
  {
    hide At;
    if o < |s| {
      PositionGrows(s, o, |s|);
    }
    if target.line <= At(s, |s|).line {
      LineIsReached(s, target.line, o, target);
      if o > 0 {
        Next(s, o - 1);
        assert !Stops(s, target, o - 1);
      }
    }
  }

  lemma {:induction false} LineIsReached(s: string, line: nat, o: nat, target: Position)
    requires IsOffset(s, target, o) && target.line == line <= At(s, |s|).line
    ensures At(s, o).line == line
  {
    hide At;
    if At(s, |s|).line > line {
      var i := LastOnLine(s, line, |s|);
      assert Stops(s, target, i);
    }
  }

  /** Lines are left at newlines only. */
  lemma {:induction false} LastOnLine(s: string, line: nat, j: nat) returns (i: nat)
    requires j <= |s| && line < At(s, j).line
    ensures i < j && At(s, i).line == line && s[i] == '\n'
  {
    hide At;
    assert At(s, 0) == Position(0, 0) by { Start(s); }
    Next(s, j - 1);
    if At(s, j - 1).line == line {
      i := j - 1;
    } else {
      i := LastOnLine(s, line, j - 1);
    }
  }

  lemma Start(s: string)
    ensures At(s, 0) == Position(0, 0)
  {}

  method SpanToRange(source: string, spanStart: nat, spanEnd: nat) returns (start: Position, end: Position)
    ensures start == At(source, Min(spanStart, |source|))
    ensures end == At(source, Max(Min(spanEnd, |source|), Min(spanStart, |source|)))
    ensures start == end || Before(start, end)
  {
    var from := Min(spanStart, |source|);
    var to := Max(Min(spanEnd, |source|), from);
    var startLine, startChar := Utf16Position(source, from);
    var endLine, endChar := Utf16Position(source, to);
    if from < to {
      PositionGrows(source, from, to);
    }
    start, end := Position(startLine, startChar), Position(endLine, endChar);
  }

  function Min(a: nat, b: nat): nat { if a < b then a else b }

  function Max(a: nat, b: nat): nat { if a < b then b else a }
}
