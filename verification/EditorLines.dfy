// Editor positions (crates/view-wire/src/editor.rs:19-67): logical lines, and clamping a cursor to
// what a native editor can select.
module EditorLines {
  import opened Wrappers
  import opened Texts

  const CR: Byte := 13
  const LF: Byte := 10

  // Grapheme boundaries (section 3 of UAX #29) of a text, left abstract.
  type Graphemes = (Text, nat) -> bool

  // The two ends are always boundaries.
  ghost predicate EndsAreBoundaries(g: Graphemes) {
    forall t: Text :: g(t, 0) && g(t, |t|)
  }

  // ---- lines ---------------------------------------------------------------------------------------

  function FirstBreak(t: Text): (at: nat)
    ensures at <= |t| && (at < |t| ==> t[at] == CR || t[at] == LF)
    ensures forall i :: 0 <= i < at ==> t[i] != CR && t[i] != LF
  {
    if t == [] then 0 else if t[0] == CR || t[0] == LF then 0 else 1 + FirstBreak(t[1..])
  }

  // Both two-byte terminators count as one.
  function BreakWidth(t: Text, at: nat): (width: nat)
    requires at < |t|
    ensures 0 < width && at + width <= |t|
  {
    if at + 1 < |t| && ((t[at] == CR && t[at + 1] == LF) || (t[at] == LF && t[at + 1] == CR)) then 2 else 1
  }

  function BreakAt(t: Text, at: nat): Text
    requires at < |t|
  {
    t[at..at + BreakWidth(t, at)]
  }

  function AfterBreak(t: Text, at: nat): (rest: Text)
    requires at < |t|
    ensures |rest| < |t|
  {
    t[at + BreakWidth(t, at)..]
  }

  function Lines(t: Text): (lines: seq<Text>)
    ensures lines != []
    decreases |t|
  {
    var end := FirstBreak(t);
    if end == |t| then [t] else [t[..end]] + Lines(AfterBreak(t, end))
  }

  // The terminators between the lines.
  function Breaks(t: Text): seq<Text>
    decreases |t|
  {
    var end := FirstBreak(t);
    if end == |t| then [] else [BreakAt(t, end)] + Breaks(AfterBreak(t, end))
  }

  function Woven(lines: seq<Text>, breaks: seq<Text>): Text
    requires |lines| == |breaks| + 1
  {
    if breaks == [] then lines[0] else lines[0] + breaks[0] + Woven(lines[1..], breaks[1..])
  }

  predicate IsBreak(t: Text) {
    t == [CR] || t == [LF] || t == [CR, LF] || t == [LF, CR]
  }

  lemma BreakIs(t: Text, at: nat)
    requires at < |t| && (t[at] == CR || t[at] == LF)
    ensures IsBreak(BreakAt(t, at)) && t == t[..at] + BreakAt(t, at) + AfterBreak(t, at)
  {
    if BreakWidth(t, at) == 2 {
      assert t[at..at + 2] == [t[at], t[at + 1]];
    } else {
      assert t[at..at + 1] == [t[at]];
    }
  }

  // One line and its terminator, then the rest.
  lemma LinesUnfold(t: Text)
    ensures var end := FirstBreak(t);
      if end == |t| then Lines(t) == [t] && Breaks(t) == []
      else
        && Lines(t) == [t[..end]] + Lines(AfterBreak(t, end))
        && Breaks(t) == [BreakAt(t, end)] + Breaks(AfterBreak(t, end))
  {
    hide FirstBreak, BreakAt, AfterBreak;
  }

  // A text taken apart: no line holds a terminator byte, every terminator is one of the four, and
  // none is split, that is, two one-byte terminators in a row are the same byte.
  predicate Splitting(lines: seq<Text>, breaks: seq<Text>) {
    && |lines| == |breaks| + 1
    && (forall i :: 0 <= i < |lines| ==> CR !in lines[i] && LF !in lines[i])
    && (forall i :: 0 <= i < |breaks| ==> IsBreak(breaks[i]))
    && (forall i :: 0 < i < |breaks| && |breaks[i - 1]| == 1 && lines[i] == [] ==> breaks[i][0] == breaks[i - 1][0])
  }

  // Splitting loses nothing and splits no terminator: weaving the lines back gives the text.
  lemma {:induction false} LinesAreExact(t: Text)
    ensures Splitting(Lines(t), Breaks(t)) && Woven(Lines(t), Breaks(t)) == t
    decreases |t|
  {
    hide FirstBreak, BreakAt, AfterBreak, Lines, Breaks, IsBreak, Splitting;
    LinesUnfold(t);
    var end := FirstBreak(t);
    if end < |t| {
      BreakIs(t, end);
      var rest := AfterBreak(t, end);
      LinesAreExact(rest);
      OneMoreLine(t[..end], BreakAt(t, end), Lines(rest), Breaks(rest)) by { NextIsNoHalf(t, end); }
      var lines, breaks := [t[..end]] + Lines(rest), [BreakAt(t, end)] + Breaks(rest);
      assert lines[1..] == Lines(rest) && breaks[1..] == Breaks(rest);
    } else {
      assert t[..end] == t;
      NoBreaks(t);
    }
  }

  lemma NoBreaks(line: Text)
    requires CR !in line && LF !in line
    ensures Splitting([line], [])
  {
  }

  lemma OneMoreLine(line: Text, br: Text, lines: seq<Text>, breaks: seq<Text>)
    requires CR !in line && LF !in line && IsBreak(br) && Splitting(lines, breaks)
    requires |br| == 1 && lines[0] == [] && breaks != [] ==> breaks[0][0] == br[0]
    ensures Splitting([line] + lines, [br] + breaks)
  {
    var all, ends := [line] + lines, [br] + breaks;
    forall i | 0 < i < |ends| && |ends[i - 1]| == 1 && all[i] == []
      ensures ends[i][0] == ends[i - 1][0]
    {
      assert all[i] == lines[i - 1] && ends[i] == breaks[i - 1];
      if i > 1 { assert ends[i - 1] == breaks[i - 2]; }
    }
  }

  // What follows a terminator taken as one byte is not the other half of a pair.
  lemma NextIsNoHalf(t: Text, at: nat)
    requires at < |t| && (t[at] == CR || t[at] == LF)
    requires Splitting(Lines(AfterBreak(t, at)), Breaks(AfterBreak(t, at)))
    requires Woven(Lines(AfterBreak(t, at)), Breaks(AfterBreak(t, at))) == AfterBreak(t, at)
    ensures var (lines, breaks) := (Lines(AfterBreak(t, at)), Breaks(AfterBreak(t, at)));
      |BreakAt(t, at)| == 1 && lines[0] == [] && breaks != [] ==> breaks[0][0] == BreakAt(t, at)[0]
  {
    hide Lines, Breaks;
    var rest := AfterBreak(t, at);
    var lines, breaks := Lines(rest), Breaks(rest);
    if |BreakAt(t, at)| == 1 && lines[0] == [] && breaks != [] {
      assert rest[0] == breaks[0][0] by { WovenHead(lines, breaks); }
      assert t[at + 1] == rest[0];
    }
  }

  lemma WovenHead(lines: seq<Text>, breaks: seq<Text>)
    requires Splitting(lines, breaks)
    ensures breaks != [] ==> Woven(lines, breaks) == lines[0] + breaks[0] + Woven(lines[1..], breaks[1..])
    ensures breaks != [] && lines[0] == [] ==> Woven(lines, breaks) != [] && Woven(lines, breaks)[0] == breaks[0][0]
    ensures breaks != [] ==> Splitting(lines[1..], breaks[1..])
  {
  }

  // No text can be taken apart in any other way.
  lemma {:induction false} SplittingIsUnique(lines: seq<Text>, breaks: seq<Text>)
    requires Splitting(lines, breaks)
    ensures Lines(Woven(lines, breaks)) == lines && Breaks(Woven(lines, breaks)) == breaks
    decreases |breaks|
  {
    var t := Woven(lines, breaks);
    hide FirstBreak, BreakAt, AfterBreak, Lines, Breaks, Splitting;
    LinesUnfold(t);
    if breaks == [] {
      LineHasNoBreak(lines);
      assert lines == [lines[0]];
    } else {
      WovenHead(lines, breaks);
      SplittingIsUnique(lines[1..], breaks[1..]);
      FirstBreakIs(lines, breaks);
      assert lines == [lines[0]] + lines[1..] && breaks == [breaks[0]] + breaks[1..];
    }
  }

  lemma LineHasNoBreak(lines: seq<Text>)
    requires Splitting(lines, [])
    ensures FirstBreak(lines[0]) == |lines[0]|
  {
  }

  lemma FirstBreakIs(lines: seq<Text>, breaks: seq<Text>)
    requires Splitting(lines, breaks) && breaks != []
    ensures var t, end := Woven(lines, breaks), |lines[0]|;
      && end < |t| && FirstBreak(t) == end && t[..end] == lines[0]
      && BreakAt(t, end) == breaks[0] && AfterBreak(t, end) == Woven(lines[1..], breaks[1..])
  {
    hide Woven;
    WovenHead(lines, breaks);
    var t, end, rest := Woven(lines, breaks), |lines[0]|, Woven(lines[1..], breaks[1..]);
    assert IsBreak(breaks[0]);
    assert t[..end] == lines[0] && t[end..end + |breaks[0]|] == breaks[0] && t[end + |breaks[0]|..] == rest;
    assert t[end] == breaks[0][0];
    if |breaks[0]| == 2 {
      assert t[end + 1] == breaks[0][1];
    } else if rest != [] {
      assert t[end + 1] == rest[0];
      RestBegins(lines, breaks);
    }
  }

  lemma RestBegins(lines: seq<Text>, breaks: seq<Text>)
    requires Splitting(lines, breaks) && breaks != [] && |breaks[0]| == 1
    ensures var rest := Woven(lines[1..], breaks[1..]);
      rest != [] ==> rest[0] == breaks[0][0] || (rest[0] != CR && rest[0] != LF)
  {
    var rest := Woven(lines[1..], breaks[1..]);
    if rest != [] && lines[1] != [] { assert rest[0] == lines[1][0]; }
  }

  // The iterator over those lines.
  class LineReader {
    var remaining: Option<Text>

    constructor (text: Text)
      ensures Rest() == Lines(text)
    {
      remaining := Some(text);
    }

    function Rest(): seq<Text>
      reads this
    {
      if remaining.None? then [] else Lines(remaining.value)
    }

    method Next() returns (line: Option<Text>)
      modifies this
      ensures old(Rest()) == [] ==> line == None && Rest() == []
      ensures old(Rest()) != [] ==> line == Some(old(Rest())[0]) && Rest() == old(Rest())[1..]
    {
      if remaining.None? {
        return None;
      }
      var text := remaining.value;
      var end := FirstBreak(text);
      if end < |text| {
        remaining := Some(AfterBreak(text, end));
      } else {
        remaining := None;
      }
      line := Some(text[..end]);
      LinesUnfold(text);
      hide Lines, FirstBreak, AfterBreak;
      assert text[..|text|] == text && [text][1..] == [];
    }
  }

  // ---- positions -----------------------------------------------------------------------------------

  datatype Position = Position(line: nat, column: nat)

  datatype Cursor = Cursor(position: Position, selection: Option<Position>)

  // The greatest boundary of a line at or before a column; the line's end is one, too.
  function BoundaryUpTo(g: Graphemes, line: Text, column: nat): (at: nat)
    requires column <= |line|
    ensures at <= column
  {
    if column == |line| || g(line, column) || column == 0 then column else BoundaryUpTo(g, line, column - 1)
  }

  function ClampPosition(g: Graphemes, text: Text, p: Position): Position {
    var lines := Lines(text);
    var line := if p.line < |lines| then p.line else |lines| - 1;
    var column := if p.column < |lines[line]| then p.column else |lines[line]|;
    Position(line, BoundaryUpTo(g, lines[line], column))
  }

  function Clamp(g: Graphemes, text: Text, c: Cursor): Cursor {
    Cursor(ClampPosition(g, text, c.position),
           if c.selection.None? then None else Some(ClampPosition(g, text, c.selection.value)))
  }

  // A place a caret can be: on a line there is, at a boundary of it.
  predicate Placed(g: Graphemes, text: Text, p: Position) {
    p.line < |Lines(text)| && p.column <= |Lines(text)[p.line]|
    && (p.column == |Lines(text)[p.line]| || g(Lines(text)[p.line], p.column))
  }

  predicate PlacedCursor(g: Graphemes, text: Text, c: Cursor) {
    Placed(g, text, c.position) && (c.selection.Some? ==> Placed(g, text, c.selection.value))
  }

  lemma {:induction false} BoundaryIsGreatest(g: Graphemes, line: Text, column: nat)
    requires column <= |line| && g(line, 0)
    ensures var at := BoundaryUpTo(g, line, column);
      && (at == |line| || g(line, at))
      && forall b :: at < b <= column ==> b != |line| && !g(line, b)
  {
    if !(column == |line| || g(line, column) || column == 0) { BoundaryIsGreatest(g, line, column - 1); }
  }

  // The placed position nearest to one asked for: on its line, or the last where there is no such
  // line, as far as its column and no further.
  ghost predicate Nearest(g: Graphemes, text: Text, asked: Position, p: Position) {
    && Placed(g, text, p)
    && (if asked.line < |Lines(text)| then p.line == asked.line else p.line == |Lines(text)| - 1)
    && p.column <= asked.column
    && forall column :: p.column < column <= asked.column ==> !Placed(g, text, Position(p.line, column))
  }

  // Clamping goes to the nearest placed cursor behind, end by end, and so leaves exactly the placed
  // cursors alone.
  lemma ClampFixesPlaced(g: Graphemes, text: Text, c: Cursor)
    requires EndsAreBoundaries(g)
    ensures Clamp(g, text, c) == c <==> PlacedCursor(g, text, c)
    ensures PlacedCursor(g, text, Clamp(g, text, c))
    ensures Nearest(g, text, c.position, Clamp(g, text, c).position)
    ensures c.selection.Some? == Clamp(g, text, c).selection.Some?
    ensures c.selection.Some? ==> Nearest(g, text, c.selection.value, Clamp(g, text, c).selection.value)
  {
    hide Lines, Placed, Nearest, ClampPosition;
    PositionFixes(g, text, c.position);
    if c.selection.Some? { PositionFixes(g, text, c.selection.value); }
    NearestIsPlaced(g, text);
  }

  lemma NearestIsPlaced(g: Graphemes, text: Text)
    ensures forall p, asked :: Nearest(g, text, asked, p) ==> Placed(g, text, p)
  {
  }

  lemma PositionFixes(g: Graphemes, text: Text, p: Position)
    requires EndsAreBoundaries(g)
    ensures ClampPosition(g, text, p) == p <==> Placed(g, text, p)
    ensures Nearest(g, text, p, ClampPosition(g, text, p))
  {
    hide Lines;
    var lines := Lines(text);
    var line := if p.line < |lines| then p.line else |lines| - 1;
    var column := if p.column < |lines[line]| then p.column else |lines[line]|;
    assert g(lines[line], 0);
    BoundaryIsGreatest(g, lines[line], column);
  }

  // Clamping as it runs: the last of the first so many lines, then the last boundary in reach.
  method ClampTo(g: Graphemes, text: Text, p: Position) returns (clamped: Position)
    requires EndsAreBoundaries(g)
    ensures clamped == ClampPosition(g, text, p)
  {
    hide Lines, FirstBreak, AfterBreak, BoundaryUpTo;
    var reader := new LineReader(text);
    var source := reader.Next();
    assert Lines(text)[0..] == Lines(text);
    var line := 0;
    var ended := false;
    while line < p.line && !ended
      invariant line <= p.line && line < |Lines(text)| && source == Some(Lines(text)[line])
      invariant reader.Rest() == Lines(text)[line + 1..]
      invariant ended ==> line == |Lines(text)| - 1
      decreases |reader.Rest()|, if ended then 0 else 1
    {
      var next := reader.Next();
      if next.None? {
        ended := true;
      } else {
        source := next;
        line := line + 1;
      }
    }
    var column: nat := if p.column < |source.value| then p.column else |source.value|;
    var at := LastBoundary(g, source.value, column);
    clamped := Position(line, at);
  }

  method LastBoundary(g: Graphemes, line: Text, column: nat) returns (at: nat)
    requires column <= |line| && g(line, 0)
    ensures at == BoundaryUpTo(g, line, column)
  {
    at := column;
    while at != |line| && !g(line, at)
      invariant at <= column && BoundaryUpTo(g, line, at) == BoundaryUpTo(g, line, column)
      decreases at
    {
      at := at - 1;
    }
  }
}
