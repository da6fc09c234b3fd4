/**
  The line-based text buffer, and the flat text it stands for: every edit of the
  lines is an edit of one string at the cursor's offset.
 */
module TextBuffer {
  import opened Common

  type Lines = seq<string>

  datatype Position = Position(row: nat, col: nat)

  // ------------------------------------------------------ edits, on values

  /** The position is a place between characters of an existing line. */
  predicate InText(lines: Lines, p: Position) {
    p.row < |lines| && p.col <= |lines[p.row]|
  }

  function LineLength(lines: Lines, row: nat): nat {
    if row < |lines| then |lines[row]| else 0
  }

  function CharInserted(lines: Lines, p: Position, ch: char): Lines
    requires InText(lines, p)
  {
    var line := lines[p.row];
    lines[p.row := line[..p.col] + [ch] + line[p.col..]]
  }

  function LineSplit(lines: Lines, p: Position): Lines
    requires InText(lines, p)
  {
    var line := lines[p.row];
    lines[..p.row] + [line[..p.col], line[p.col..]] + lines[p.row + 1..]
  }

  function CharDeleted(lines: Lines, p: Position): Lines
    requires InText(lines, p) && p.col < |lines[p.row]|
  {
    var line := lines[p.row];
    lines[p.row := line[..p.col] + line[p.col + 1..]]
  }

  function LineDeleted(lines: Lines, row: nat): Lines
    requires row < |lines|
  {
    if |lines| > 1 then lines[..row] + lines[row + 1..] else [""]
  }

  function LinesJoined(lines: Lines, row: nat): Lines
    requires 0 < row < |lines|
  {
    lines[..row - 1] + [lines[row - 1] + lines[row]] + lines[row + 1..]
  }

  /** The lines and cursor after backspace; nothing to delete at the very start. */
  function BackSpaced(lines: Lines, p: Position): Option<(Lines, Position)>
    requires InText(lines, p)
  {
    if p.col > 0 then
      Some((CharDeleted(lines, Position(p.row, p.col - 1)), Position(p.row, p.col - 1)))
    else if p.row > 0 then
      Some((LinesJoined(lines, p.row), Position(p.row - 1, |lines[p.row - 1]|)))
    else None
  }

  /** Backspace takes back a character just inserted, ... */
  lemma BackSpaceUndoesInsert(lines: Lines, p: Position, ch: char)
    requires InText(lines, p)
    ensures var lines', p' := CharInserted(lines, p, ch), Position(p.row, p.col + 1);
            InText(lines', p') && BackSpaced(lines', p') == Some((lines, p))
  {
    var longer, line := CharInserted(lines, p, ch)[p.row], lines[p.row];
    assert longer[..p.col] + longer[p.col + 1..] == line;
    assert CharDeleted(CharInserted(lines, p, ch), p) == lines;
  }

  /** ... and a line just split. */
  lemma BackSpaceUndoesSplit(lines: Lines, p: Position)
    requires InText(lines, p)
    ensures var lines', p' := LineSplit(lines, p), Position(p.row + 1, 0);
            InText(lines', p') && BackSpaced(lines', p') == Some((lines, p))
  {
    var line := lines[p.row];
    assert line[..p.col] + line[p.col..] == line;
    assert LinesJoined(LineSplit(lines, p), p.row + 1) == lines;
  }

  // ----------------------------------------------------------- the flat text

  /** The lines joined by newlines, as they are saved. */
  function Flat(lines: Lines): string {
    if lines == [] then "" else if |lines| == 1 then lines[0] else lines[0] + "\n" + Flat(lines[1..])
  }

  /** What precedes a line, and what follows one, in the flat text. */
  function Before(lines: Lines): string {
    if lines == [] then "" else lines[0] + "\n" + Before(lines[1..])
  }

  function Behind(lines: Lines): string {
    if lines == [] then "" else "\n" + lines[0] + Behind(lines[1..])
  }

  /** Where a position lies in the flat text. */
  function Offset(lines: Lines, p: Position): nat
    requires InText(lines, p)
  {
    |Before(lines[..p.row])| + p.col
  }

  lemma {:induction false} FlatBehind(middle: Lines, after: Lines)
    requires |middle| > 0
    ensures Flat(middle + after) == Flat(middle) + Behind(after)
    decreases |middle| + |after|
  {
    var all := middle + after;
    if |middle| == 1 {
      if after == [] {
        assert all == middle;
      } else {
        FlatBehind([after[0]], after[1..]);
        assert [after[0]] + after[1..] == after;
        assert all[1..] == after;
      }
    } else {
      FlatBehind(middle[1..], after);
      assert all[1..] == middle[1..] + after;
    }
  }

  /** The flat text falls into what is before, within and behind a block of lines. */
  lemma {:induction false} FlatParts(before: Lines, middle: Lines, after: Lines)
    requires |middle| > 0
    ensures Flat(before + middle + after) == Before(before) + Flat(middle) + Behind(after)
    decreases |before|
  {
    var all := before + middle + after;
    if before == [] {
      assert all == middle + after;
      FlatBehind(middle, after);
    } else {
      FlatParts(before[1..], middle, after);
      assert all[1..] == before[1..] + middle + after;
    }
  }

  /** A line cut at a position, in its place in the flat text. */
  lemma FlatCut(lines: Lines, p: Position)
    requires InText(lines, p)
    ensures var line := lines[p.row]; var flat, o := Flat(lines), Offset(lines, p);
            && o <= |flat|
            && flat[..o] == Before(lines[..p.row]) + line[..p.col]
            && flat[o..] == line[p.col..] + Behind(lines[p.row + 1..])
  {
    var line := lines[p.row];
    assert lines == lines[..p.row] + [line] + lines[p.row + 1..];
    FlatParts(lines[..p.row], [line], lines[p.row + 1..]);
    var left, right := Before(lines[..p.row]) + line[..p.col], line[p.col..] + Behind(lines[p.row + 1..]);
    assert line == line[..p.col] + line[p.col..];
    assert Flat(lines) == left + right;
  }

  /** Typing a character inserts it into the flat text at the cursor. */
  lemma InsertIsFlat(lines: Lines, p: Position, ch: char)
    requires InText(lines, p)
    ensures var flat, o := Flat(lines), Offset(lines, p);
            o <= |flat| && Flat(CharInserted(lines, p, ch)) == flat[..o] + [ch] + flat[o..]
    ensures var p' := Position(p.row, p.col + 1); var lines' := CharInserted(lines, p, ch);
            InText(lines', p') && Offset(lines', p') == Offset(lines, p) + 1
  {
    var lines', line := CharInserted(lines, p, ch), lines[p.row];
    FlatCut(lines, p);
    assert lines' == lines[..p.row] + [lines'[p.row]] + lines[p.row + 1..];
    FlatParts(lines[..p.row], [lines'[p.row]], lines[p.row + 1..]);
    assert lines'[..p.row] == lines[..p.row];
  }

  /** Enter inserts a newline into the flat text at the cursor. */
  lemma SplitIsFlat(lines: Lines, p: Position)
    requires InText(lines, p)
    ensures var flat, o := Flat(lines), Offset(lines, p);
            o <= |flat| && Flat(LineSplit(lines, p)) == flat[..o] + "\n" + flat[o..]
    ensures var p' := Position(p.row + 1, 0); var lines' := LineSplit(lines, p);
            InText(lines', p') && Offset(lines', p') == Offset(lines, p) + 1
  {
    var lines', line := LineSplit(lines, p), lines[p.row];
    var halves := [line[..p.col], line[p.col..]];
    FlatCut(lines, p);
    FlatParts(lines[..p.row], halves, lines[p.row + 1..]);
    assert halves[1..] == [line[p.col..]];
    assert lines'[..p.row + 1] == lines[..p.row] + [line[..p.col]];
    BeforeExtended(lines[..p.row], line[..p.col]);
  }

  lemma {:induction false} BeforeExtended(lines: Lines, line: string)
    ensures Before(lines + [line]) == Before(lines) + line + "\n"
    decreases |lines|
  {
    if lines == [] {
      assert (lines + [line])[1..] == [];
    } else {
      BeforeExtended(lines[1..], line);
      assert (lines + [line])[1..] == lines[1..] + [line];
    }
  }

  /** The flat text with one line replaced. */
  lemma FlatReplaced(lines: Lines, row: nat, line: string)
    requires row < |lines|
    ensures Flat(lines[row := line]) == Before(lines[..row]) + line + Behind(lines[row + 1..])
  {
    assert lines[row := line] == lines[..row] + [line] + lines[row + 1..];
    FlatParts(lines[..row], [line], lines[row + 1..]);
  }

  lemma Regrouped(a: string, b: string, c: string, d: string)
    ensures a + (b + c) + d == (a + b) + (c + d)
  {
  }

  /** Deleting under the cursor removes one character of the flat text. */
  lemma DeleteIsFlat(lines: Lines, p: Position)
    requires InText(lines, p) && p.col < |lines[p.row]|
    ensures var flat, o := Flat(lines), Offset(lines, p);
            o < |flat| && Flat(CharDeleted(lines, p)) == flat[..o] + flat[o + 1..]
  {
    var line := lines[p.row];
    FlatCut(lines, p);
    FlatCut(lines, Position(p.row, p.col + 1));
    FlatReplaced(lines, p.row, line[..p.col] + line[p.col + 1..]);
    Regrouped(Before(lines[..p.row]), line[..p.col], line[p.col + 1..], Behind(lines[p.row + 1..]));
  }

  /** The start of a line lies one past the end of the line above. */
  lemma OffsetAbove(lines: Lines, row: nat)
    requires 0 < row < |lines|
    ensures Offset(lines, Position(row, 0)) == Offset(lines, Position(row - 1, |lines[row - 1]|)) + 1
  {
    assert lines[..row] == lines[..row - 1] + [lines[row - 1]];
    BeforeExtended(lines[..row - 1], lines[row - 1]);
  }

  lemma FlatJoined(lines: Lines, row: nat)
    requires 0 < row < |lines|
    ensures Flat(LinesJoined(lines, row)) ==
            Before(lines[..row - 1]) + (lines[row - 1] + lines[row]) + Behind(lines[row + 1..])
  {
    FlatParts(lines[..row - 1], [lines[row - 1] + lines[row]], lines[row + 1..]);
  }

  /** Joining a line with the one above removes the newline between them. */
  lemma JoinIsFlat(lines: Lines, row: nat)
    requires 0 < row < |lines|
    ensures var flat, o := Flat(lines), Offset(lines, Position(row, 0));
            && 0 < o <= |flat|
            && Flat(LinesJoined(lines, row)) == flat[..o - 1] + flat[o..]
            && InText(LinesJoined(lines, row), Position(row - 1, |lines[row - 1]|))
            && Offset(LinesJoined(lines, row), Position(row - 1, |lines[row - 1]|)) == o - 1
  {
    var upper, lower := lines[row - 1], lines[row];
    OffsetAbove(lines, row);
    FlatCut(lines, Position(row, 0));
    FlatCut(lines, Position(row - 1, |upper|));
    FlatJoined(lines, row);
    Regrouped(Before(lines[..row - 1]), upper, lower, Behind(lines[row + 1..]));
    assert LinesJoined(lines, row)[..row - 1] == lines[..row - 1];
  }

  lemma LineAboveGone(lines: Lines, row: nat)
    requires row + 1 < |lines|
    ensures var flat, o := Flat(lines), Offset(lines, Position(row, 0)); var end := o + |lines[row]| + 1;
            end <= |flat| && Flat(LineDeleted(lines, row)) == flat[..o] + flat[end..]
  {
    FlatCut(lines, Position(row, 0));
    FlatCut(lines, Position(row + 1, 0));
    OffsetAbove(lines, row + 1);
    FlatWithout(lines, row);
  }

  lemma FlatWithout(lines: Lines, row: nat)
    requires row + 1 < |lines|
    ensures Flat(LineDeleted(lines, row)) == Before(lines[..row]) + (lines[row + 1] + Behind(lines[row + 2..]))
  {
    assert LineDeleted(lines, row) == lines[..row] + [lines[row + 1]] + lines[row + 2..];
    FlatParts(lines[..row], [lines[row + 1]], lines[row + 2..]);
  }

  lemma LastLineGone(lines: Lines, row: nat)
    requires 0 < row == |lines| - 1
    ensures var flat, o := Flat(lines), Offset(lines, Position(row, 0));
            && 0 < o && o + |lines[row]| == |flat|
            && Flat(LineDeleted(lines, row)) == flat[..o - 1]
  {
    FlatCut(lines, Position(row, 0));
    FlatCut(lines, Position(row - 1, |lines[row - 1]|));
    OffsetAbove(lines, row);
    assert LineDeleted(lines, row) == lines[..row - 1] + [lines[row - 1]] + [];
    FlatParts(lines[..row - 1], [lines[row - 1]], []);
  }

  /**
    Deleting a line removes its characters and one newline: the one after it, or for
    the last line the one before it; the only line has none.
   */
  lemma DeleteLineIsFlat(lines: Lines, row: nat)
    requires row < |lines|
    ensures var flat, o := Flat(lines), Offset(lines, Position(row, 0)); var end := o + |lines[row]|;
            && end <= |flat|
            && (row + 1 < |lines| ==> end < |flat| && Flat(LineDeleted(lines, row)) == flat[..o] + flat[end + 1..])
            && (0 < row == |lines| - 1 ==>
                  0 < o && end == |flat| && Flat(LineDeleted(lines, row)) == flat[..o - 1])
            && (|lines| == 1 ==> o == 0 && end == |flat| && Flat(LineDeleted(lines, row)) == "")
  {
    if row + 1 < |lines| {
      LineAboveGone(lines, row);
    } else if row > 0 {
      LastLineGone(lines, row);
    }
  }

  lemma BackSpaceInLine(lines: Lines, p: Position)
    requires InText(lines, p) && p.col > 0
    ensures var q := Position(p.row, p.col - 1); var flat, o := Flat(lines), Offset(lines, p);
            && 0 < o <= |flat|
            && Flat(CharDeleted(lines, q)) == flat[..o - 1] + flat[o..]
            && Offset(CharDeleted(lines, q), q) == o - 1
  {
    var q := Position(p.row, p.col - 1);
    DeleteIsFlat(lines, q);
    assert CharDeleted(lines, q)[..p.row] == lines[..p.row];
  }

  /** Backspace removes the character before the cursor, wherever lines break. */
  lemma BackSpaceIsFlat(lines: Lines, p: Position)
    requires InText(lines, p)
    ensures BackSpaced(lines, p).None? <==> Offset(lines, p) == 0
    ensures BackSpaced(lines, p).Some? ==>
              var (lines', p') := BackSpaced(lines, p).value; var flat, o := Flat(lines), Offset(lines, p);
              && 0 < o <= |flat|
              && Flat(lines') == flat[..o - 1] + flat[o..]
              && InText(lines', p') && Offset(lines', p') == o - 1
  {
    if p.col > 0 {
      BackSpaceInLine(lines, p);
    } else if p.row > 0 {
      JoinIsFlat(lines, p.row);
    }
  }

  // ------------------------------------------------------- saving and loading

  predicate EndsWithReturn(line: string) {
    line != "" && line[|line| - 1] == '\r'
  }

  function WithoutReturn(line: string): string {
    if EndsWithReturn(line) then line[..|line| - 1] else line
  }

  /** The position of the first newline, or the length. */
  function Break(text: string): (n: nat)
    ensures n <= |text| && '\n' !in text[..n]
    ensures n < |text| ==> text[n] == '\n'
  {
    if text == "" || text[0] == '\n' then 0
    else
      var n := 1 + Break(text[1..]);
      assert text[..n] == [text[0]] + text[1..][..n - 1];
      n
  }

  /** Lines end at a newline, with a carriage return before it dropped; a final newline ends the last line. */
  function Split(text: string): (lines: Lines)
    decreases |text|
  {
    if text == "" then []
    else
      var n := Break(text);
      if n == |text| then [text] else [WithoutReturn(text[..n])] + Split(text[n + 1..])
  }

  function FromString(text: string): Lines {
    if text == "" then [""] else Split(text)
  }

  lemma {:induction false} SplitHasNoNewline(text: string)
    ensures text != "" ==> |Split(text)| > 0
    ensures forall i :: 0 <= i < |Split(text)| ==> '\n' !in Split(text)[i]
    decreases |text|
  {
    var n := Break(text);
    if n < |text| {
      SplitHasNoNewline(text[n + 1..]);
    } else {
      assert text[..n] == text;
    }
  }

  /** Loaded text always has a line to put the cursor on. */
  lemma FromStringHasLine(text: string)
    ensures |FromString(text)| > 0
    ensures forall i :: 0 <= i < |FromString(text)| ==> '\n' !in FromString(text)[i]
  {
    SplitHasNoNewline(text);
  }

  /**
    What survives saving and loading: no newline inside a line, no carriage
    return at the end of a line that another follows, and no empty last line
    unless it is the only one.
   */
  ghost predicate Storable(lines: Lines) {
    && |lines| > 0
    && (forall i :: 0 <= i < |lines| ==> '\n' !in lines[i])
    && (forall i :: 0 <= i < |lines| - 1 ==> !EndsWithReturn(lines[i]))
    && (|lines| > 1 ==> lines[|lines| - 1] != "")
  }

  lemma {:induction false} BreakAt(line: string, rest: string)
    requires '\n' !in line
    ensures Break(line + "\n" + rest) == |line|
    decreases |line|
  {
    if line != "" {
      BreakAt(line[1..], rest);
      assert (line + "\n" + rest)[1..] == line[1..] + "\n" + rest;
    }
  }

  lemma BreakNone(line: string)
    requires '\n' !in line
    ensures Break(line) == |line|
  {
  }

  /** A line and its newline are split off as one. */
  lemma SplitAt(line: string, rest: string)
    requires '\n' !in line
    ensures Split(line + "\n" + rest) == [WithoutReturn(line)] + Split(rest)
  {
    var text := line + "\n" + rest;
    BreakAt(line, rest);
    assert text[..|line|] == line && text[|line| + 1..] == rest;
  }

  lemma FlatCons(lines: Lines)
    requires |lines| > 1 && '\n' !in lines[0]
    ensures Flat(lines) != ""
    ensures Split(Flat(lines)) == [WithoutReturn(lines[0])] + Split(Flat(lines[1..]))
  {
    SplitAt(lines[0], Flat(lines[1..]));
  }

  /** Of lines without newlines, the ones that splitting gives back. */
  ghost predicate Splittable(lines: Lines)
    requires |lines| > 0
  {
    lines[|lines| - 1] != "" && forall i :: 0 <= i < |lines| - 1 ==> !EndsWithReturn(lines[i])
  }

  lemma SplittableTail(lines: Lines)
    requires |lines| > 1
    ensures Splittable(lines) <==> !EndsWithReturn(lines[0]) && Splittable(lines[1..])
  {
  }

  lemma {:induction false} SplitFlat(lines: Lines)
    requires |lines| > 0 && forall i :: 0 <= i < |lines| ==> '\n' !in lines[i]
    ensures Split(Flat(lines)) == lines <==> Splittable(lines)
    decreases |lines|
  {
    if |lines| == 1 {
      BreakNone(lines[0]);
    } else {
      SplitFlat(lines[1..]);
      FlatCons(lines);
      SplittableTail(lines);
      assert lines == [lines[0]] + lines[1..];
    }
  }

  /** A file of lines, each ended by a newline, with a carriage return before it where `dos` says so. */
  function Ended(lines: Lines, dos: seq<bool>): string
    requires |lines| == |dos|
  {
    if lines == [] then "" else lines[0] + (if dos[0] then "\r\n" else "\n") + Ended(lines[1..], dos[1..])
  }

  ghost predicate EndsKept(lines: Lines, dos: seq<bool>)
    requires |lines| == |dos|
  {
    forall i :: 0 <= i < |lines| && EndsWithReturn(lines[i]) ==> dos[i]
  }

  lemma EndedCons(lines: Lines, dos: seq<bool>)
    requires |lines| == |dos| > 0 && '\n' !in lines[0]
    ensures var first := if dos[0] then lines[0] else WithoutReturn(lines[0]);
            Ended(lines, dos) != "" && Split(Ended(lines, dos)) == [first] + Split(Ended(lines[1..], dos[1..]))
  {
    var rest := Ended(lines[1..], dos[1..]);
    if dos[0] {
      var line := lines[0] + "\r";
      assert Ended(lines, dos) == line + "\n" + rest;
      SplitAt(line, rest);
      assert line[..|lines[0]|] == lines[0];
    } else {
      SplitAt(lines[0], rest);
    }
  }

  lemma EndsKeptTail(lines: Lines, dos: seq<bool>)
    requires |lines| == |dos| > 0
    ensures EndsKept(lines, dos) <==> (EndsWithReturn(lines[0]) ==> dos[0]) && EndsKept(lines[1..], dos[1..])
  {
    if EndsKept(lines[1..], dos[1..]) {
      assert forall i :: 0 < i < |lines| ==> lines[i] == lines[1..][i - 1] && dos[i] == dos[1..][i - 1];
    }
  }

  lemma {:induction false} SplitEnded(lines: Lines, dos: seq<bool>)
    requires |lines| == |dos| && forall i :: 0 <= i < |lines| ==> '\n' !in lines[i]
    ensures Split(Ended(lines, dos)) == lines <==> EndsKept(lines, dos)
    decreases |lines|
  {
    if lines != [] {
      EndedCons(lines, dos);
      SplitEnded(lines[1..], dos[1..]);
      EndsKeptTail(lines, dos);
      assert lines == [lines[0]] + lines[1..];
    }
  }

  /**
    A file whose lines end in newlines, or in carriage returns and newlines, loads as
    those lines, the final newline adding none, exactly when no line that ends in a
    carriage return of its own is followed by a bare newline.
   */
  lemma FileLoadsAsItsLines(lines: Lines, dos: seq<bool>)
    requires |lines| == |dos| > 0 && forall i :: 0 <= i < |lines| ==> '\n' !in lines[i]
    ensures FromString(Ended(lines, dos)) == lines <==> EndsKept(lines, dos)
  {
    EndedCons(lines, dos);
    SplitEnded(lines, dos);
  }

  /** Saving and loading gives the buffer back exactly when it is storable. */
  lemma SaveLoadRoundTrip(lines: Lines)
    requires |lines| > 0
    ensures FromString(Flat(lines)) == lines <==> Storable(lines)
  {
    if forall i :: 0 <= i < |lines| ==> '\n' !in lines[i] {
      SplitFlat(lines);
      if |lines| > 1 {
        FlatCons(lines);
      }
    } else {
      FromStringHasLine(Flat(lines));
    }
  }

  /** A buffer that ends in an empty line loses it. */
  lemma TrailingEmptyLineIsLost()
    ensures FromString(Flat(["a", ""])) == ["a"]
  {
    FlatCons(["a", ""]);
    assert ["a", ""][1..] == [""];
  }

  // ------------------------------------------------------ the buffer object

  class Buffer {
    var lines: Lines

    constructor ()
      ensures lines == [""]
    {
      lines := [""];
    }

    method InsertChar(p: Position, ch: char) returns (ok: bool)
      modifies this
      ensures ok <==> InText(old(lines), p)
      ensures lines == if ok then CharInserted(old(lines), p, ch) else old(lines)
    {
      if p.row >= |lines| {
        return false;
      }
      var line := lines[p.row];
      if p.col > |line| {
        return false;
      }
      lines := lines[p.row := line[..p.col] + [ch] + line[p.col..]];
      return true;
    }

    method InsertNewline(p: Position) returns (ok: bool)
      modifies this
      ensures ok <==> InText(old(lines), p)
      ensures lines == if ok then LineSplit(old(lines), p) else old(lines)
    {
      if p.row >= |lines| {
        return false;
      }
      var line := lines[p.row];
      if p.col > |line| {
        return false;
      }
      var rest := line[p.col..];
      lines := lines[p.row := line[..p.col]];
      lines := lines[..p.row + 1] + [rest] + lines[p.row + 1..];
      return true;
    }

    method DeleteChar(p: Position) returns (ok: bool)
      modifies this
      ensures ok <==> InText(old(lines), p) && p.col < |old(lines)[p.row]|
      ensures lines == if ok then CharDeleted(old(lines), p) else old(lines)
    {
      if p.row >= |lines| {
        return false;
      }
      var line := lines[p.row];
      if p.col >= |line| {
        return false;
      }
      lines := lines[p.row := line[..p.col] + line[p.col + 1..]];
      return true;
    }

    method BackSpace(p: Position) returns (moved: Option<Position>)
      requires InText(lines, p)
      modifies this
      ensures moved.Some? <==> BackSpaced(old(lines), p).Some?
      ensures moved.Some? ==> BackSpaced(old(lines), p) == Some((lines, moved.value))
      ensures moved.None? ==> lines == old(lines)
    {
      if p.col > 0 {
        var line := lines[p.row];
        lines := lines[p.row := line[..p.col - 1] + line[p.col..]];
        return Some(Position(p.row, p.col - 1));
      } else if p.row > 0 {
        var current := lines[p.row];
        lines := lines[..p.row] + lines[p.row + 1..];
        var upper := lines[p.row - 1];
        lines := lines[p.row - 1 := upper + current];
        assert lines == LinesJoined(old(lines), p.row);
        return Some(Position(p.row - 1, |upper|));
      } else {
        return None;
      }
    }

    method DeleteLine(row: nat) returns (ok: bool)
      modifies this
      ensures ok <==> row < |old(lines)|
      ensures lines == if ok then LineDeleted(old(lines), row) else old(lines)
    {
      if row >= |lines| {
        return false;
      }
      if |lines| > 1 {
        lines := lines[..row] + lines[row + 1..];
      } else {
        lines := lines[row := ""];
      }
      return true;
    }
  }
}
