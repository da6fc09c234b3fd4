/** Cells, grids and what the screen of an editor state is supposed to show. */
module Screen {
  import opened Common

  datatype Cell = Cell(ch: char, attr: byte)

  type Grid = seq<seq<Cell>>

  const EMPTY_CELL := Cell(' ', 7)

  /** How a display shows a cell under the cursor drawn with some attribute. */
  type Look = (Cell, byte) -> Cell

  /** What the renderer asks of the editor. */
  datatype View = View(lines: seq<string>, scroll: nat, cursor: Option<(nat, nat)>, status: string)

  predicate Shaped(g: Grid, cols: nat, rows: nat) {
    |g| == rows && forall r :: 0 <= r < rows ==> |g[r]| == cols
  }

  /** The line in a viewport row; rows past the end of the text are empty. */
  function LineAt(v: View, row: nat): string {
    if v.scroll + row < |v.lines| then v.lines[v.scroll + row] else ""
  }

  /** A text laid out over a whole row, cut at the right edge and padded with spaces. */
  function RowOf(text: string, cols: nat, attr: byte): (row: seq<Cell>)
    ensures |row| == cols
    ensures forall c :: 0 <= c < cols ==> row[c] == Cell(if c < |text| then text[c] else ' ', attr)
  {
    seq(cols, c requires 0 <= c < cols => Cell(if c < |text| then text[c] else ' ', attr))
  }

  /** The screen before the cursor is drawn: text rows, then the status row. */
  function Plain(v: View, cols: nat, rows: nat, normal: byte, bold: byte): (g: Grid)
    requires rows > 0
    ensures Shaped(g, cols, rows)
    ensures forall r :: 0 <= r < rows - 1 ==> g[r] == RowOf(LineAt(v, r), cols, normal)
    ensures g[rows - 1] == RowOf(v.status, cols, bold)
  {
    seq(rows, r requires 0 <= r < rows =>
      if r < rows - 1 then RowOf(LineAt(v, r), cols, normal) else RowOf(v.status, cols, bold))
  }

  /** Column and row of the cursor on screen, pulled inside the text area. */
  function CursorAt(v: View, cols: nat, rows: nat): (at: Option<(nat, nat)>)
    requires cols > 0 && rows > 0
    ensures at.Some? ==> at.value.0 < cols && at.value.1 < rows
    ensures at.Some? && rows > 1 ==> at.value.1 < rows - 1
  {
    if v.cursor.None? then None
    else Some((Min(v.cursor.value.0, cols - 1), if rows == 1 then 0 else Min(v.cursor.value.1, rows - 2)))
  }

  function WithCell(g: Grid, col: nat, row: nat, cell: Cell): Grid
    requires row < |g| && col < |g[row]|
  {
    g[row := g[row][col := cell]]
  }

  function WithCursor(g: Grid, at: Option<(nat, nat)>, attr: byte, look: Look): Grid
    requires at.Some? ==> at.value.1 < |g| && at.value.0 < |g[at.value.1]|
  {
    if at.None? then g
    else WithCell(g, at.value.0, at.value.1, look(g[at.value.1][at.value.0], attr))
  }

  /** What a full redraw of the state shows. */
  function Shown(v: View, cols: nat, rows: nat, normal: byte, bold: byte, look: Look): Grid
    requires cols > 0 && rows > 0
  {
    WithCursor(Plain(v, cols, rows, normal, bold), CursorAt(v, cols, rows), normal, look)
  }

  // ------------------------------------------- cursors over the status row

  /** A cursor drawn over the status row, which only a screen without a text row has. */
  datatype Stroke = Stroke(col: nat, attr: byte)

  /** How the status row stands: the attribute it was last drawn with and the cursors drawn over it since. */
  datatype Kept = Kept(bold: byte, strokes: seq<Stroke>)

  /** A cell of the status row under the cursors drawn on it, oldest first. */
  function Stacked(cell: Cell, strokes: seq<Stroke>, col: nat, look: Look): Cell {
    if strokes == [] then cell
    else
      var last := strokes[|strokes| - 1];
      var under := Stacked(cell, strokes[..|strokes| - 1], col, look);
      if last.col == col then look(under, last.attr) else under
  }

  function KeptRow(text: string, cols: nat, kept: Kept, look: Look): (row: seq<Cell>)
    ensures |row| == cols
    ensures forall c :: 0 <= c < cols ==> row[c] == Stacked(RowOf(text, cols, kept.bold)[c], kept.strokes, c, look)
  {
    seq(cols, c requires 0 <= c < cols => Stacked(RowOf(text, cols, kept.bold)[c], kept.strokes, c, look))
  }

  /** The cursor a frame draws over the status row. */
  function StrokeOf(v: View, cols: nat, rows: nat, normal: byte): seq<Stroke>
    requires cols > 0 && rows > 0
  {
    var at := CursorAt(v, cols, rows);
    if rows == 1 && at.Some? then [Stroke(at.value.0, normal)] else []
  }

  /**
    The cursors drawn so far left no trace: beside the new cursor the cell is the
    plain one, and under the new cursor it looks as the plain one would.
   */
  ghost predicate TraceFree(v: View, cols: nat, normal: byte, bold: byte, kept: Kept, look: Look)
    requires cols > 0
  {
    forall c :: 0 <= c < cols ==>
      var under, plain := KeptRow(v.status, cols, kept, look)[c], RowOf(v.status, cols, bold)[c];
      if CursorAt(v, cols, 1) == Some((c, 0)) then look(under, normal) == look(plain, normal) else under == plain
  }

  lemma StrokesJoin(cell: Cell, strokes: seq<Stroke>, stroke: Stroke, col: nat, look: Look)
    ensures Stacked(cell, strokes + [stroke], col, look) ==
            if stroke.col == col then look(Stacked(cell, strokes, col, look), stroke.attr)
            else Stacked(cell, strokes, col, look)
  {
    assert (strokes + [stroke])[..|strokes|] == strokes;
  }

  /** Drawing the cursor over a kept status row adds its stroke. */
  lemma StrokeShows(v: View, cols: nat, normal: byte, kept: Kept, look: Look)
    requires cols > 0
    ensures var kept' := kept.(strokes := kept.strokes + StrokeOf(v, cols, 1, normal));
            WithCursor([KeptRow(v.status, cols, kept, look)], CursorAt(v, cols, 1), normal, look) ==
            [KeptRow(v.status, cols, kept', look)]
  {
    var at := CursorAt(v, cols, 1);
    var kept' := kept.(strokes := kept.strokes + StrokeOf(v, cols, 1, normal));
    var row, row' := KeptRow(v.status, cols, kept, look), KeptRow(v.status, cols, kept', look);
    if at.Some? {
      forall c | 0 <= c < cols
        ensures row'[c] == if c == at.value.0 then look(row[c], normal) else row[c]
      {
        StrokesJoin(RowOf(v.status, cols, kept.bold)[c], kept.strokes, Stroke(at.value.0, normal), c, look);
      }
      assert row' == row[at.value.0 := look(row[at.value.0], normal)];
    } else {
      assert kept' == kept;
    }
  }

  /** A one-row frame is the full redraw exactly when earlier cursors left no trace. */
  lemma OneRowShowsIffTraceFree(v: View, cols: nat, normal: byte, bold: byte, kept: Kept, look: Look)
    requires cols > 0
    ensures var drawn := WithCursor([KeptRow(v.status, cols, kept, look)], CursorAt(v, cols, 1), normal, look);
            drawn == Shown(v, cols, 1, normal, bold, look) <==> TraceFree(v, cols, normal, bold, kept, look)
  {
    var at := CursorAt(v, cols, 1);
    var row, plain := KeptRow(v.status, cols, kept, look), RowOf(v.status, cols, bold);
    assert Plain(v, cols, 1, normal, bold) == [plain];
    var got: Grid, want: Grid := WithCursor([row], at, normal, look), WithCursor([plain], at, normal, look);
    forall c | 0 <= c < cols
      ensures got[0][c] == if at == Some((c, 0)) then look(row[c], normal) else row[c]
      ensures want[0][c] == if at == Some((c, 0)) then look(plain[c], normal) else plain[c]
    {
    }
    if TraceFree(v, cols, normal, bold, kept, look) {
      assert forall c :: 0 <= c < cols ==> got[0][c] == want[0][c];
      assert got[0] == want[0];
    } else {
      var c :| 0 <= c < cols && got[0][c] != want[0][c];
    }
  }

  /** The VGA cursor: foreground and background swapped, and an underscore for a space. */
  function VgaLook(cell: Cell, attr: byte): Cell {
    Cell(if cell.ch == ' ' then '_' else cell.ch, Swapped(attr))
  }

  function Swapped(attr: byte): byte {
    (attr % 16) * 16 + attr / 16
  }

  /** Foreground and background, the two halves of the attribute, change places. */
  lemma SwappedHalves(attr: byte)
    ensures Swapped(attr) % 16 == attr / 16 && Swapped(attr) / 16 == attr % 16
    ensures Swapped(Swapped(attr)) == attr
  {
  }

  /** The attribute of the last cursor drawn in a column, if any. */
  function LastAt(strokes: seq<Stroke>, col: nat): Option<byte> {
    if strokes == [] then None
    else if strokes[|strokes| - 1].col == col then Some(strokes[|strokes| - 1].attr)
    else LastAt(strokes[..|strokes| - 1], col)
  }

  lemma LastJoins(strokes: seq<Stroke>, stroke: Stroke, col: nat)
    ensures LastAt(strokes + [stroke], col) == if stroke.col == col then Some(stroke.attr) else LastAt(strokes, col)
  {
    assert (strokes + [stroke])[..|strokes|] == strokes;
  }

  /** Of several VGA cursors on a cell only the last one shows. */
  lemma {:induction false} VgaStacked(cell: Cell, strokes: seq<Stroke>, col: nat)
    ensures Stacked(cell, strokes, col, VgaLook) ==
            if LastAt(strokes, col).None? then cell else VgaLook(cell, LastAt(strokes, col).value)
    decreases |strokes|
  {
    if strokes != [] {
      VgaStacked(cell, strokes[..|strokes| - 1], col);
    }
  }

  /** The status character of a column. */
  function StatusChar(v: View, c: nat): char {
    if c < |v.status| then v.status[c] else ' '
  }

  /**
    The column shows the plain status: it has had no cursor since the status was drawn
    and keeps its attribute, or it shows a non-blank character whose last cursor looked
    just like the status attribute.
   */
  predicate VgaPlain(v: View, bold: byte, kept: Kept, c: nat) {
    var last := LastAt(kept.strokes, c);
    if last.None? then kept.bold == bold else StatusChar(v, c) != ' ' && Swapped(last.value) == bold
  }

  /** On a VGA screen no trace is left exactly when every column beside the cursor's shows the plain status. */
  lemma VgaTraceFree(v: View, cols: nat, normal: byte, bold: byte, kept: Kept)
    requires cols > 0
    ensures TraceFree(v, cols, normal, bold, kept, VgaLook) <==>
            forall c :: 0 <= c < cols && CursorAt(v, cols, 1) != Some((c, 0)) ==> VgaPlain(v, bold, kept, c)
  {
    forall c | 0 <= c < cols
      ensures KeptRow(v.status, cols, kept, VgaLook)[c] ==
              var x, last := RowOf(v.status, cols, kept.bold)[c], LastAt(kept.strokes, c);
              if last.None? then x else VgaLook(x, last.value)
    {
      VgaStacked(RowOf(v.status, cols, kept.bold)[c], kept.strokes, c);
    }
  }

  /** On a screen with a text row, the status attribute shows. */
  lemma BoldShows(v: View, cols: nat, rows: nat, normal: byte, bold: byte, bold': byte, look: Look)
    requires cols > 0 && rows > 1
    ensures Shown(v, cols, rows, normal, bold, look) == Shown(v, cols, rows, normal, bold', look) <==> bold == bold'
  {
    var g: Grid, g': Grid := Shown(v, cols, rows, normal, bold, look), Shown(v, cols, rows, normal, bold', look);
    assert g[rows - 1][0].attr == bold && g'[rows - 1][0].attr == bold';
  }

  /** The row with some cells replaced from a column on. */
  function Splice(row: seq<Cell>, col: nat, cells: seq<Cell>): (spliced: seq<Cell>)
    requires col + |cells| <= |row|
    ensures |spliced| == |row|
    ensures forall c :: 0 <= c < |row| ==> spliced[c] == if col <= c < col + |cells| then cells[c - col] else row[c]
  {
    row[..col] + cells + row[col + |cells|..]
  }

  lemma SpliceStep(row: seq<Cell>, col: nat, cells: seq<Cell>, i: nat)
    requires col + |cells| <= |row| && i < |cells|
    ensures Splice(row, col, cells[..i])[col + i := cells[i]] == Splice(row, col, cells[..i + 1])
  {
  }

  /** The grid after a text is written cell by cell, and how many of its characters found a place. */
  function Printed(g: Grid, cols: nat, rows: nat, col: nat, row: nat, text: string, attr: byte): (p: (Grid, nat))
    requires Shaped(g, cols, rows)
    ensures Shaped(p.0, cols, rows)
    decreases |text|
  {
    if text == "" then (g, 0)
    else if text[0] == '\n' then
      if row + 1 >= rows then (g, 0) else Printed(g, cols, rows, 0, row + 1, text[1..], attr)
    else
      var (c, r) := if col >= cols then (0, row + 1) else (col, row);
      if r >= rows then (g, 0)
      else if c >= cols then Printed(g, cols, rows, c + 1, r, text[1..], attr)
      else
        var (g', n) := Printed(WithCell(g, c, r, Cell(text[0], attr)), cols, rows, c + 1, r, text[1..], attr);
        (g', n + 1)
  }

  /** The character of a text without newlines that lands on a cell, counting cells row by row. */
  function Landing(cols: nat, col: nat, row: nat, c: nat, r: nat): int {
    (r * cols + c) - (row * cols + col)
  }

  lemma SameCell(cols: nat, c: nat, r: nat, c': nat, r': nat)
    requires c < cols && c' < cols && r * cols + c == r' * cols + c'
    ensures c == c' && r == r'
  {
    if r < r' {
      RowsApart(cols, r, r');
    } else if r' < r {
      RowsApart(cols, r', r);
    }
  }

  /** A text without newlines fills consecutive cells, row after row, as far as the display goes. */
  lemma {:induction false} PrintedFlows(g: Grid, cols: nat, rows: nat, col: nat, row: nat, text: string, attr: byte,
                                        c: nat, r: nat)
    requires Shaped(g, cols, rows) && col <= cols && '\n' !in text && c < cols && r < rows
    ensures var k := Landing(cols, col, row, c, r);
            Printed(g, cols, rows, col, row, text, attr).0[r][c] ==
            if 0 <= k < |text| then Cell(text[k], attr) else g[r][c]
    decreases |text|
  {
    if text != "" {
      var (at, line) := if col >= cols then (0, row + 1) else (col, row);
      assert line * cols + at == row * cols + col;
      if line >= rows {
        RowsApart(cols, r, line);
      } else {
        PrintedFlows(WithCell(g, at, line, Cell(text[0], attr)), cols, rows, at + 1, line, text[1..], attr, c, r);
        if Landing(cols, col, row, c, r) == 0 {
          SameCell(cols, c, r, at, line);
        }
      }
    }
  }

  /** As many characters of it are written as the display has cells from there on. */
  lemma {:induction false} PrintedCounts(g: Grid, cols: nat, rows: nat, col: nat, row: nat, text: string, attr: byte)
    requires Shaped(g, cols, rows) && 0 < cols && col <= cols && '\n' !in text
    ensures Printed(g, cols, rows, col, row, text, attr).1 == Min(|text|, Max(rows * cols - (row * cols + col), 0))
    decreases |text|
  {
    if text != "" {
      var (at, line) := if col >= cols then (0, row + 1) else (col, row);
      assert line * cols + at == row * cols + col;
      if line >= rows {
        assert line > rows ==> rows * cols + cols <= line * cols by {
          if line > rows {
            RowsApart(cols, rows, line);
          }
        }
      } else {
        RowsApart(cols, line, rows);
        PrintedCounts(WithCell(g, at, line, Cell(text[0], attr)), cols, rows, at + 1, line, text[1..], attr);
      }
    }
  }

  /** A newline goes on at the start of the next row, and ends the text below the last one. */
  lemma {:induction false} PrintedBreaks(g: Grid, cols: nat, rows: nat, col: nat, row: nat, a: string, b: string,
                                         attr: byte)
    requires Shaped(g, cols, rows) && row < rows && col + |a| <= cols && '\n' !in a
    ensures var front := Printed(g, cols, rows, col, row, a, attr).0;
            Printed(g, cols, rows, col, row, a + "\n" + b, attr).0 ==
            if row + 1 < rows then Printed(front, cols, rows, 0, row + 1, b, attr).0 else front
    decreases |a|
  {
    if a == "" {
      assert a + "\n" + b == ['\n'] + b && (['\n'] + b)[1..] == b;
    } else {
      PrintedBreaks(WithCell(g, col, row, Cell(a[0], attr)), cols, rows, col + 1, row, a[1..], b, attr);
      assert (a + "\n" + b)[1..] == a[1..] + "\n" + b;
    }
  }

  /** A text without newlines that fits on its row changes exactly its span. */
  lemma PrintedFits(g: Grid, cols: nat, rows: nat, col: nat, row: nat, text: string, attr: byte)
    requires Shaped(g, cols, rows) && row < rows && col + |text| <= cols && '\n' !in text
    ensures Printed(g, cols, rows, col, row, text, attr).0 == g[row := Splice(g[row], col, RowOf(text, |text|, attr))]
  {
    var p := Printed(g, cols, rows, col, row, text, attr).0;
    var target := g[row := Splice(g[row], col, RowOf(text, |text|, attr))];
    forall r, c | 0 <= r < rows && 0 <= c < cols ensures p[r][c] == target[r][c] {
      PrintedFlows(g, cols, rows, col, row, text, attr, c, r);
      if r < row {
        RowsApart(cols, r, row);
      } else if row < r {
        RowsApart(cols, row, r);
      }
    }
    assert forall r :: 0 <= r < rows ==> p[r] == target[r];
  }

  /** The display: a grid of cells, changed cell by cell. */
  class Sink {
    var cols: nat
    var rows: nat
    var grid: Grid
    const look: Look

    ghost predicate Valid()
      reads this
    {
      Shaped(grid, cols, rows)
    }

    constructor (cols: nat, rows: nat, grid: Grid, look: Look)
      requires Shaped(grid, cols, rows)
      ensures Valid() && this.cols == cols && this.rows == rows && this.grid == grid && this.look == look
    {
      this.cols, this.rows, this.grid, this.look := cols, rows, grid, look;
    }

    /** The display is replaced by one of another size or content. */
    method Replace(cols: nat, rows: nat, grid: Grid)
      requires Shaped(grid, cols, rows)
      modifies this
      ensures Valid() && this.cols == cols && this.rows == rows && this.grid == grid
    {
      this.cols, this.rows, this.grid := cols, rows, grid;
    }

    method WriteAt(col: nat, row: nat, ch: char, attr: byte) returns (ok: bool)
      requires Valid()
      modifies this`grid
      ensures Valid() && ok == (col < cols && row < rows)
      ensures grid == if ok then WithCell(old(grid), col, row, Cell(ch, attr)) else old(grid)
    {
      ok := col < cols && row < rows;
      if ok {
        grid := grid[row := grid[row][col := Cell(ch, attr)]];
      }
    }

    /** Text runs on from row to row, and a newline starts the next row. */
    method WriteStrAt(col: nat, row: nat, text: string, attr: byte) returns (written: nat)
      requires Valid()
      modifies this`grid
      ensures Valid()
      ensures (grid, written) == Printed(old(grid), cols, rows, col, row, text, attr)
    {
      var c: nat, r: nat, i := col, row, 0;
      written := 0;
      assert text[0..] == text;
      while i < |text|
        invariant Valid() && i <= |text|
        invariant var (g, n) := Printed(grid, cols, rows, c, r, text[i..], attr);
                  (g, written + n) == Printed(old(grid), cols, rows, col, row, text, attr)
      {
        assert text[i..][1..] == text[i + 1..];
        if text[i] == '\n' {
          c, r := 0, r + 1;
          if r >= rows {
            return;
          }
        } else {
          if c >= cols {
            c, r := 0, r + 1;
          }
          if r >= rows {
            return;
          }
          var ok := WriteAt(c, r, text[i], attr);
          if ok {
            written := written + 1;
          }
          c := c + 1;
        }
        i := i + 1;
      }
    }

    /** Blanks what the display has of the span. */
    method ClearSpan(col: nat, row: nat, len: nat, attr: byte) returns (cleared: nat)
      requires Valid()
      modifies this`grid
      ensures Valid()
      ensures cleared == if row < rows && col < cols then Min(len, cols - col) else 0
      ensures grid == if cleared == 0 then old(grid)
                      else old(grid)[row := Splice(old(grid)[row], col, RowOf("", cleared, attr))]
    {
      ghost var room := if row < rows && col < cols then Min(len, cols - col) else 0;
      ghost var blanks := RowOf("", room, attr);
      cleared := 0;
      for i := 0 to len
        invariant Valid() && cleared == Min(i, room)
        invariant grid == if cleared == 0 then old(grid)
                          else old(grid)[row := Splice(old(grid)[row], col, blanks[..cleared])]
      {
        if i < room {
          SpliceStep(old(grid)[row], col, blanks, i);
          assert i == 0 ==> Splice(old(grid)[row], col, blanks[..0]) == old(grid)[row];
        }
        var ok := WriteAt(col + i, row, ' ', attr);
        if ok {
          cleared := cleared + 1;
        }
      }
      assert blanks[..room] == blanks;
    }

    /** Shows the cell as under the cursor; a position off the display is ignored. */
    method DrawCursor(col: nat, row: nat, attr: byte)
      requires Valid()
      modifies this`grid
      ensures Valid()
      ensures grid == if col < cols && row < rows then WithCursor(old(grid), Some((col, row)), attr, look) else old(grid)
    {
      if col < cols && row < rows {
        grid := grid[row := grid[row][col := look(grid[row][col], attr)]];
      }
    }
  }
}
