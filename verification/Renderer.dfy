/**
  The incremental editor renderer: a cache of cells, cursor and status is compared
  with the new state, and only what differs is written to the display.
 */
module Renderer {
  import opened Common
  import opened Screen

  // -------------------------------------------------- the cache's cell table

  lemma RowFits(cols: nat, r: nat, rows: nat)
    requires r < rows
    ensures 0 <= r * cols && r * cols + cols <= cols * rows
  {
    RowsApart(cols, r, rows);
  }

  /** One row of the row-major table. */
  function RowIn(cells: seq<Cell>, cols: nat, rows: nat, r: nat): (row: seq<Cell>)
    requires |cells| == cols * rows && r < rows
    ensures |row| == cols
  {
    RowFits(cols, r, rows);
    cells[r * cols..r * cols + cols]
  }

  /** Storing one cell changes that cell of that row and nothing else. */
  lemma StoreOne(cells: seq<Cell>, cols: nat, rows: nat, col: nat, row: nat, cell: Cell)
    requires |cells| == cols * rows && col < cols && row < rows
    ensures row * cols + col < |cells|
    ensures var cells' := cells[row * cols + col := cell];
            forall r :: 0 <= r < rows ==>
              RowIn(cells', cols, rows, r) == if r == row then RowIn(cells, cols, rows, r)[col := cell]
                  else RowIn(cells, cols, rows, r)
  {
    RowFits(cols, row, rows);
    var cells' := cells[row * cols + col := cell];
    forall r | 0 <= r < rows && r != row ensures RowIn(cells', cols, rows, r) == RowIn(cells, cols, rows, r) {
      RowFits(cols, r, rows);
      if r < row {
        RowsApart(cols, r, row);
      } else {
        RowsApart(cols, row, r);
      }
    }
  }

  class Cache {
    var cells: seq<Cell>
    var cursorPos: Option<(nat, nat)>
    var statusLine: string
    var cols: nat
    var rows: nat
    var valid: bool
    var scrollOffset: nat
    /** How the status row stands on the display. */
    ghost var kept: Kept

    ghost predicate Valid()
      reads this
    {
      |cells| == cols * rows
    }

    ghost function Row(r: nat): (row: seq<Cell>)
      requires Valid() && r < rows
      reads this
      ensures |row| == cols
    {
      RowIn(cells, cols, rows, r)
    }

    constructor ()
      ensures Valid() && !valid && cols == 0 && rows == 0
    {
      cells, cursorPos, statusLine := [], None, "";
      cols, rows, valid, scrollOffset, kept := 0, 0, false, 0, Kept(0, []);
    }

    method EnsureSize(cols: nat, rows: nat)
      requires Valid()
      modifies this
      ensures Valid() && this.cols == cols && this.rows == rows
      ensures cols == old(this.cols) && rows == old(this.rows) ==>
                cells == old(cells) && cursorPos == old(cursorPos) && statusLine == old(statusLine) && valid == old(valid)
      ensures cols != old(this.cols) || rows != old(this.rows) ==> !valid
      ensures scrollOffset == old(scrollOffset) && kept == old(kept)
    {
      if this.cols != cols || this.rows != rows {
        this.cols, this.rows := cols, rows;
        cells := seq(cols * rows, _ => EMPTY_CELL);
        valid, cursorPos, statusLine := false, None, "";
      }
    }

    method Invalidate()
      modifies this`valid
      ensures !valid
    {
      valid := false;
    }

    method Get(col: nat, row: nat) returns (cell: Cell)
      requires Valid()
      ensures cell == if col < cols && row < rows then Row(row)[col] else EMPTY_CELL
    {
      if col < cols && row < rows {
        RowFits(cols, row, rows);
        return cells[row * cols + col];
      } else {
        return EMPTY_CELL;
      }
    }

    method Set(col: nat, row: nat, cell: Cell)
      requires Valid()
      modifies this`cells
      ensures Valid()
      ensures col >= cols || row >= rows ==> cells == old(cells)
      ensures col < cols && row < rows ==>
                forall r :: 0 <= r < rows ==> Row(r) == if r == row then old(Row(r))[col := cell] else old(Row(r))
    {
      if col < cols && row < rows {
        StoreOne(cells, cols, rows, col, row, cell);
        cells := cells[row * cols + col := cell];
      }
    }

    /** The cells of a row from a column on take the given values, left to right. */
    method SetSpan(col: nat, row: nat, span: seq<Cell>)
      requires Valid() && row < rows && col + |span| <= cols
      modifies this`cells
      ensures Valid()
      ensures Row(row) == Splice(old(Row(row)), col, span)
      ensures forall r :: 0 <= r < rows && r != row ==> Row(r) == old(Row(r))
    {
      ghost var before := Row(row);
      assert Splice(before, col, span[..0]) == before;
      for i := 0 to |span|
        invariant Valid()
        invariant Row(row) == Splice(before, col, span[..i])
        invariant forall r :: 0 <= r < rows && r != row ==> Row(r) == old(Row(r))
      {
        SpliceStep(before, col, span, i);
        Set(col + i, row, span[i]);
      }
      assert span[..|span|] == span;
    }
  }

  /** Whether a text row on screen would differ from what the cache records. */
  method LineNeedsUpdate(cache: Cache, text: string, row: nat, cols: nat, attr: byte) returns (differs: bool)
    requires cache.Valid() && row < cache.rows && cols == cache.cols
    ensures differs <==> cache.Row(row) != RowOf(text, cols, attr)
  {
    for col := 0 to cols
      invariant cache.Row(row)[..col] == RowOf(text, cols, attr)[..col]
    {
      var expected := Cell(if col < |text| then text[col] else ' ', attr);
      var cell := cache.Get(col, row);
      if cell != expected {
        assert RowOf(text, cols, attr)[col] != cache.Row(row)[col];
        return true;
      }
    }
    assert cache.Row(row)[..cols] == cache.Row(row) && RowOf(text, cols, attr)[..cols] == RowOf(text, cols, attr);
    return false;
  }

  /** Writes a whole row: the text, then one cleared span; the cache follows. */
  method RenderRow(sink: Sink, cache: Cache, text: string, row: nat, cols: nat, attr: byte)
    requires sink.Valid() && cache.Valid() && cols == sink.cols == cache.cols && row < sink.rows == cache.rows
    requires '\n' !in text
    modifies sink`grid, cache`cells
    ensures sink.Valid() && cache.Valid()
    ensures sink.grid == old(sink.grid)[row := RowOf(text, cols, attr)]
    ensures cache.Row(row) == RowOf(text, cols, attr)
    ensures forall r :: 0 <= r < cache.rows && r != row ==> cache.Row(r) == old(cache.Row(r))
  {
    var len := Min(|text|, cols);
    var written := RowOf(text[..len], len, attr);
    var cleared := RowOf("", cols - len, attr);
    ghost var target := RowOf(text, cols, attr);
    if len > 0 {
      PrintedFits(sink.grid, cols, sink.rows, 0, row, text[..len], attr);
      var _ := sink.WriteStrAt(0, row, text[..len], attr);
    }
    assert sink.grid[row] == Splice(old(sink.grid[row]), 0, written);
    if len < cols {
      var _ := sink.ClearSpan(len, row, cols - len, attr);
      cache.SetSpan(len, row, cleared);
    }
    assert sink.grid[row] == target;
    cache.SetSpan(0, row, written);
    assert cache.Row(row) == target;
  }

  /** Brings the cache row up to date and reports the span of columns that changed. */
  method DiffRow(cache: Cache, text: string, row: nat, cols: nat, attr: byte) returns (start: Option<nat>, end: nat)
    requires cache.Valid() && cols == cache.cols && row < cache.rows
    modifies cache`cells
    ensures cache.Valid()
    ensures cache.Row(row) == RowOf(text, cols, attr)
    ensures forall r :: 0 <= r < cache.rows && r != row ==> cache.Row(r) == old(cache.Row(r))
    ensures start.None? ==> old(cache.Row(row)) == RowOf(text, cols, attr)
    ensures start.Some? ==> start.value < end <= cols
    ensures start.Some? ==>
              forall c :: 0 <= c < cols && !(start.value <= c < end) ==>
                old(cache.Row(row))[c] == RowOf(text, cols, attr)[c]
  {
    ghost var before, target := cache.Row(row), RowOf(text, cols, attr);
    start, end := None, 0;
    for col := 0 to cols
      invariant cache.Valid()
      invariant forall r :: 0 <= r < cache.rows && r != row ==> cache.Row(r) == old(cache.Row(r))
      invariant forall c :: 0 <= c < cols ==> cache.Row(row)[c] == if c < col then target[c] else before[c]
      invariant start.Some? ==> start.value < end <= col
      invariant forall c :: 0 <= c < col && !(start.Some? && start.value <= c < end) ==> before[c] == target[c]
    {
      var newCell := Cell(if col < |text| then text[col] else ' ', attr);
      var oldCell := cache.Get(col, row);
      if newCell != oldCell {
        if start.None? {
          start := Some(col);
        }
        end := col + 1;
        cache.Set(col, row, newCell);
      }
    }
  }

  /** Writes the columns of a text row from `first` up to `end`: what there is of the text, then spaces. */
  method WriteSpan(sink: Sink, text: string, row: nat, cols: nat, attr: byte, first: nat, end: nat)
    requires sink.Valid() && cols == sink.cols && row < sink.rows && first < end <= cols && '\n' !in text
    modifies sink`grid
    ensures sink.Valid()
    ensures sink.grid == old(sink.grid)[row := Splice(old(sink.grid)[row], first, RowOf(text, cols, attr)[first..end])]
  {
    ghost var before, target := sink.grid[row], RowOf(text, cols, attr);
    var writeEnd := Min(end, |text|);
    if first < |text| {
      PrintedFits(sink.grid, cols, sink.rows, first, row, text[first..writeEnd], attr);
      var _ := sink.WriteStrAt(first, row, text[first..writeEnd], attr);
      assert RowOf(text[first..writeEnd], writeEnd - first, attr) == target[first..writeEnd];
      assert sink.grid[row] == Splice(before, first, target[first..writeEnd]);
    }
    if end > |text| {
      var clearStart := Max(|text|, first);
      if end - clearStart > 0 {
        var _ := sink.ClearSpan(clearStart, row, end - clearStart, attr);
        assert RowOf("", end - clearStart, attr) == target[clearStart..end];
      }
    }
    assert sink.grid[row] == Splice(before, first, target[first..end]);
  }

  /** Writes only the span of changed columns; the row then shows the whole text. */
  method RenderRowIncremental(sink: Sink, cache: Cache, text: string, row: nat, cols: nat, attr: byte)
    requires sink.Valid() && cache.Valid() && cols == sink.cols == cache.cols && row < sink.rows == cache.rows
    requires '\n' !in text
    requires sink.grid[row] == cache.Row(row)
    modifies sink`grid, cache`cells
    ensures sink.Valid() && cache.Valid()
    ensures sink.grid == old(sink.grid)[row := RowOf(text, cols, attr)]
    ensures cache.Row(row) == RowOf(text, cols, attr)
    ensures forall r :: 0 <= r < cache.rows && r != row ==> cache.Row(r) == old(cache.Row(r))
  {
    var start, end := DiffRow(cache, text, row, cols, attr);
    if start.Some? {
      WriteSpan(sink, text, row, cols, attr, start.value, end);
    }
    assert sink.grid[row] == RowOf(text, cols, attr);
  }

  // -------------------------------------------------------------- one frame

  ghost predicate SameSize(sink: Sink, cache: Cache)
    reads sink, cache
  {
    cache.cols == sink.cols && cache.rows == sink.rows
  }

  /**
    What a valid cache promises about the display: outside the cursor's cell every
    text row shows the cached cells, and the last row shows the cached status under
    the cursors drawn over it, of which there are none below a text row.
   */
  ghost predicate Mirrors(sink: Sink, cache: Cache)
    requires sink.Valid() && cache.Valid() && SameSize(sink, cache) && sink.rows > 0
    reads sink, cache
  {
    && (forall r, c :: 0 <= r < sink.rows - 1 && 0 <= c < sink.cols && cache.cursorPos != Some((c, r)) ==>
          sink.grid[r][c] == cache.Row(r)[c])
    && sink.grid[sink.rows - 1] == KeptRow(cache.statusLine, sink.cols, cache.kept, sink.look)
    && (sink.rows > 1 ==> cache.kept.strokes == [])
    && (cache.cursorPos.Some? ==> cache.cursorPos.value.0 < sink.cols && cache.cursorPos.value.1 < sink.rows)
    && (cache.cursorPos.Some? && sink.rows > 1 ==> cache.cursorPos.value.1 < sink.rows - 1)
  }

  /** Display and cache between frames: a cache that is valid for this size mirrors the display. */
  ghost predicate InStep(sink: Sink, cache: Cache)
    reads sink, cache
  {
    && sink.Valid() && cache.Valid() && sink.rows > 0 && sink.cols > 0
    && (cache.valid && SameSize(sink, cache) ==> Mirrors(sink, cache))
  }

  /** No line of the view breaks. */
  ghost predicate Printable(v: View) {
    '\n' !in v.status && forall i :: 0 <= i < |v.lines| ==> '\n' !in v.lines[i]
  }

  /** Every text row is shown by display and cache alike. */
  ghost predicate TextShown(sink: Sink, cache: Cache, v: View, attr: byte, upTo: nat)
    requires sink.Valid() && cache.Valid() && SameSize(sink, cache) && upTo <= sink.rows
    reads sink, cache
  {
    forall r :: 0 <= r < upTo ==>
      sink.grid[r] == RowOf(LineAt(v, r), sink.cols, attr) && cache.Row(r) == RowOf(LineAt(v, r), sink.cols, attr)
  }

  method RenderAllText(sink: Sink, cache: Cache, v: View, attr: byte)
    requires sink.Valid() && cache.Valid() && SameSize(sink, cache) && sink.rows > 0 && Printable(v)
    modifies sink`grid, cache`cells
    ensures sink.Valid() && cache.Valid()
    ensures TextShown(sink, cache, v, attr, sink.rows - 1)
    ensures sink.grid[sink.rows - 1] == old(sink.grid[sink.rows - 1])
  {
    for row := 0 to sink.rows - 1
      invariant sink.Valid() && cache.Valid()
      invariant TextShown(sink, cache, v, attr, row)
      invariant sink.grid[sink.rows - 1] == old(sink.grid[sink.rows - 1])
    {
      RenderRow(sink, cache, LineAt(v, row), row, sink.cols, attr);
    }
  }

  method RenderChangedText(sink: Sink, cache: Cache, v: View, attr: byte)
    requires sink.Valid() && cache.Valid() && SameSize(sink, cache) && sink.rows > 0 && Printable(v)
    requires forall r :: 0 <= r < sink.rows - 1 ==> sink.grid[r] == cache.Row(r)
    modifies sink`grid, cache`cells
    ensures sink.Valid() && cache.Valid()
    ensures TextShown(sink, cache, v, attr, sink.rows - 1)
    ensures sink.grid[sink.rows - 1] == old(sink.grid[sink.rows - 1])
  {
    for row := 0 to sink.rows - 1
      invariant sink.Valid() && cache.Valid()
      invariant TextShown(sink, cache, v, attr, row)
      invariant forall r :: row <= r < sink.rows - 1 ==> sink.grid[r] == cache.Row(r)
      invariant sink.grid[sink.rows - 1] == old(sink.grid[sink.rows - 1])
    {
      var changed := LineNeedsUpdate(cache, LineAt(v, row), row, sink.cols, attr);
      if changed {
        RenderRowIncremental(sink, cache, LineAt(v, row), row, sink.cols, attr);
      }
    }
  }

  /** Puts the cached cell back where the cursor was, when that was in the text. */
  method RestoreUnderCursor(sink: Sink, cache: Cache)
    requires sink.Valid() && cache.Valid() && SameSize(sink, cache) && sink.rows > 0 && Mirrors(sink, cache)
    modifies sink`grid
    ensures sink.Valid()
    ensures forall r :: 0 <= r < sink.rows - 1 ==> sink.grid[r] == cache.Row(r)
    ensures sink.grid[sink.rows - 1] == old(sink.grid[sink.rows - 1])
  {
    if cache.cursorPos.Some? {
      var (col, row) := cache.cursorPos.value;
      if row < sink.rows - 1 {
        var cell := cache.Get(col, row);
        var _ := sink.WriteAt(col, row, cell.ch, cell.attr);
      }
    }
  }

  /** The text area, wholly or only where it changed. */
  method RenderText(sink: Sink, cache: Cache, v: View, attr: byte, full: bool)
    requires InStep(sink, cache) && SameSize(sink, cache) && Printable(v)
    requires full || cache.valid
    modifies sink`grid, cache`cells, cache`scrollOffset, cache`valid
    ensures sink.Valid() && cache.Valid() && cache.valid
    ensures TextShown(sink, cache, v, attr, sink.rows - 1)
    ensures sink.grid[sink.rows - 1] == old(sink.grid[sink.rows - 1])
    ensures cache.scrollOffset == if full then v.scroll else old(cache.scrollOffset)
  {
    if full {
      RenderAllText(sink, cache, v, attr);
      cache.scrollOffset := v.scroll;
      cache.valid := true;
    } else {
      RestoreUnderCursor(sink, cache);
      RenderChangedText(sink, cache, v, attr);
    }
  }

  /** The status row, below the text it must not disturb. */
  method RenderStatus(sink: Sink, cache: Cache, v: View, normal: byte, bold: byte)
    requires sink.Valid() && cache.Valid() && SameSize(sink, cache) && sink.rows > 0 && Printable(v)
    requires TextShown(sink, cache, v, normal, sink.rows - 1)
    modifies sink`grid, cache`cells, cache`statusLine, cache`kept
    ensures sink.Valid() && cache.Valid()
    ensures TextShown(sink, cache, v, normal, sink.rows - 1)
    ensures sink.grid[sink.rows - 1] == RowOf(v.status, sink.cols, bold)
    ensures cache.statusLine == v.status && cache.kept == Kept(bold, [])
  {
    RenderRow(sink, cache, v.status, sink.rows - 1, sink.cols, bold);
    cache.statusLine := v.status;
    cache.kept := Kept(bold, []);
  }

  /** Drawing the cursor touches its own cell only, which is on the last row only if that is the only one. */
  lemma CursorTouches(g: Grid, v: View, cols: nat, rows: nat, attr: byte, kept: Kept, look: Look)
    requires cols > 0 && rows > 0 && Shaped(g, cols, rows)
    requires g[rows - 1] == KeptRow(v.status, cols, kept, look) && (rows > 1 ==> kept.strokes == [])
    ensures var at := CursorAt(v, cols, rows);
            var g': Grid, strokes := WithCursor(g, at, attr, look), kept.strokes + StrokeOf(v, cols, rows, attr);
            && Shaped(g', cols, rows)
            && (forall r, c :: 0 <= r < rows - 1 && 0 <= c < cols && at != Some((c, r)) ==> g'[r][c] == g[r][c])
            && g'[rows - 1] == KeptRow(v.status, cols, kept.(strokes := strokes), look)
            && (rows > 1 ==> strokes == [])
  {
    if rows == 1 {
      assert g == [KeptRow(v.status, cols, kept, look)];
      StrokeShows(v, cols, attr, kept, look);
    }
  }

  /** Draws the cursor of the view and records where. */
  method DrawCursorOf(sink: Sink, cache: Cache, v: View, attr: byte)
    requires sink.Valid() && sink.rows > 0 && sink.cols > 0
    modifies sink`grid, cache`cursorPos, cache`kept
    ensures sink.Valid() && cache.cursorPos == CursorAt(v, sink.cols, sink.rows)
    ensures cache.kept ==
            old(cache.kept).(strokes := old(cache.kept.strokes) + StrokeOf(v, sink.cols, sink.rows, attr))
    ensures sink.grid == WithCursor(old(sink.grid), CursorAt(v, sink.cols, sink.rows), attr, sink.look)
  {
    var at := CursorAt(v, sink.cols, sink.rows);
    if at.Some? {
      sink.DrawCursor(at.value.0, at.value.1, attr);
    }
    cache.cursorPos := at;
    cache.kept := cache.kept.(strokes := cache.kept.strokes + StrokeOf(v, sink.cols, sink.rows, attr));
  }

  method PlaceCursor(sink: Sink, cache: Cache, v: View, attr: byte)
    requires sink.Valid() && cache.Valid() && SameSize(sink, cache) && sink.rows > 0 && sink.cols > 0
    requires TextShown(sink, cache, v, attr, sink.rows - 1) && cache.statusLine == v.status
    requires sink.grid[sink.rows - 1] == KeptRow(v.status, sink.cols, cache.kept, sink.look)
    requires sink.rows > 1 ==> cache.kept.strokes == []
    modifies sink`grid, cache`cursorPos, cache`kept
    ensures sink.Valid() && cache.Valid() && Mirrors(sink, cache)
    ensures cache.kept ==
            old(cache.kept).(strokes := old(cache.kept.strokes) + StrokeOf(v, sink.cols, sink.rows, attr))
    ensures sink.grid == WithCursor(old(sink.grid), CursorAt(v, sink.cols, sink.rows), attr, sink.look)
  {
    CursorTouches(sink.grid, v, sink.cols, sink.rows, attr, cache.kept, sink.look);
    DrawCursorOf(sink, cache, v, attr);
  }

  /** Everything but the cursor. */
  method RenderRows(sink: Sink, cache: Cache, v: View, normal: byte, bold: byte, force: bool)
    returns (statusDrawn: bool)
    requires InStep(sink, cache) && Printable(v)
    modifies sink`grid, cache
    ensures sink.Valid() && cache.Valid() && SameSize(sink, cache) && cache.valid
    ensures TextShown(sink, cache, v, normal, sink.rows - 1)
    ensures cache.statusLine == v.status && cache.scrollOffset == v.scroll
    ensures statusDrawn <==>
            || force || !old(cache.valid) || !old(SameSize(sink, cache))
            || old(cache.scrollOffset) != v.scroll || old(cache.statusLine) != v.status
    ensures cache.kept == if statusDrawn then Kept(bold, []) else old(cache.kept)
    ensures sink.grid[sink.rows - 1] == KeptRow(v.status, sink.cols, cache.kept, sink.look)
    ensures sink.rows > 1 ==> cache.kept.strokes == []
  {
    cache.EnsureSize(sink.cols, sink.rows);
    var full := force || !cache.valid || cache.scrollOffset != v.scroll;
    RenderText(sink, cache, v, normal, full);
    statusDrawn := full || v.status != cache.statusLine;
    if statusDrawn {
      RenderStatus(sink, cache, v, normal, bold);
    }
  }

  /** A frame over a status row as it stands shows the full redraw. */
  ghost predicate ShowsRight(v: View, cols: nat, rows: nat, normal: byte, bold: byte, kept: Kept, look: Look)
    requires cols > 0 && rows > 0
  {
    if rows > 1 then kept.bold == bold else TraceFree(v, cols, normal, bold, kept, look)
  }

  /** What a frame shows when the text is in place and the status row stands as `kept`. */
  lemma FrameShows(g: Grid, v: View, cols: nat, rows: nat, normal: byte, bold: byte, kept: Kept, look: Look)
    requires cols > 0 && rows > 0 && Shaped(g, cols, rows)
    requires forall r :: 0 <= r < rows - 1 ==> g[r] == RowOf(LineAt(v, r), cols, normal)
    requires g[rows - 1] == KeptRow(v.status, cols, kept, look) && (rows > 1 ==> kept.strokes == [])
    ensures WithCursor(g, CursorAt(v, cols, rows), normal, look) == Shown(v, cols, rows, normal, bold, look) <==>
            ShowsRight(v, cols, rows, normal, bold, kept, look)
  {
    if rows > 1 {
      assert g[rows - 1] == RowOf(v.status, cols, kept.bold);
      assert g == Plain(v, cols, rows, normal, kept.bold);
      BoldShows(v, cols, rows, normal, kept.bold, bold, look);
    } else {
      assert g == [KeptRow(v.status, cols, kept, look)];
      OneRowShowsIffTraceFree(v, cols, normal, bold, kept, look);
    }
  }

  /**
    One frame.  The status row is drawn when the frame is a full redraw or the
    status text changed.  The screen is then the full redraw exactly when the status
    attribute is the one drawn and, on a single row, earlier cursors left no trace.
   */
  method RenderEditor(sink: Sink, cache: Cache, v: View, normal: byte, bold: byte, force: bool)
    returns (statusDrawn: bool)
    requires InStep(sink, cache) && Printable(v)
    modifies sink`grid, cache
    ensures InStep(sink, cache) && SameSize(sink, cache) && cache.valid
    ensures cache.statusLine == v.status && cache.scrollOffset == v.scroll
    ensures statusDrawn <==>
            || force || !old(cache.valid) || !old(SameSize(sink, cache))
            || old(cache.scrollOffset) != v.scroll || old(cache.statusLine) != v.status
    ensures var kept := if statusDrawn then Kept(bold, []) else old(cache.kept);
            && cache.kept == kept.(strokes := kept.strokes + StrokeOf(v, sink.cols, sink.rows, normal))
            && (sink.grid == Shown(v, sink.cols, sink.rows, normal, bold, sink.look) <==>
                ShowsRight(v, sink.cols, sink.rows, normal, bold, kept, sink.look))
  {
    statusDrawn := RenderRows(sink, cache, v, normal, bold, force);
    FrameShows(sink.grid, v, sink.cols, sink.rows, normal, bold, cache.kept, sink.look);
    PlaceCursor(sink, cache, v, normal);
  }
}
