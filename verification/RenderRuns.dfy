/** Whole sessions of the incremental renderer, compared frame by frame with full redraws. */
module RenderRuns {
  import opened Common
  import opened Screen
  import opened Renderer

  /** A frame to render, possibly after the display was resized or painted over. */
  datatype Frame = Frame(v: View, normal: byte, bold: byte, force: bool, replaced: Option<Display>)

  datatype Display = Display(cols: nat, rows: nat, grid: Grid)

  predicate HasCells(d: Display) {
    d.cols > 0 && d.rows > 0 && Shaped(d.grid, d.cols, d.rows)
  }

  ghost predicate Renderable(f: Frame) {
    Printable(f.v) && (f.replaced.Some? ==> HasCells(f.replaced.value))
  }

  /** A first display with cells and frames without line breaks, on displays with cells. */
  ghost predicate IsSession(frames: seq<Frame>, first: Display) {
    HasCells(first) && forall i :: 0 <= i < |frames| ==> Renderable(frames[i])
  }

  /** The size of the display when frame `i` is rendered. */
  ghost function SizeAt(frames: seq<Frame>, i: nat, first: Display): (size: (nat, nat))
    requires IsSession(frames, first) && i < |frames|
    ensures size.0 > 0 && size.1 > 0
  {
    if frames[i].replaced.Some? then (frames[i].replaced.value.cols, frames[i].replaced.value.rows)
    else if i == 0 then (first.cols, first.rows)
    else SizeAt(frames, i - 1, first)
  }

  /** Frame `i` draws the status row: it is the first, forced, on a new display, scrolled, or its status is new. */
  ghost predicate DrawsStatus(frames: seq<Frame>, i: nat)
    requires i < |frames|
  {
    || i == 0 || frames[i].force || frames[i].replaced.Some?
    || frames[i].v.scroll != frames[i - 1].v.scroll || frames[i].v.status != frames[i - 1].v.status
  }

  /** How the status row stands when frame `i` comes to draw its cursor. */
  ghost function KeptBefore(frames: seq<Frame>, i: nat, first: Display): Kept
    requires IsSession(frames, first) && i < |frames|
    decreases i, 0
  {
    if DrawsStatus(frames, i) then Kept(frames[i].bold, []) else KeptAfter(frames, i - 1, first)
  }

  ghost function KeptAfter(frames: seq<Frame>, i: nat, first: Display): Kept
    requires IsSession(frames, first) && i < |frames|
    decreases i, 1
  {
    var (cols, rows) := SizeAt(frames, i, first);
    var kept := KeptBefore(frames, i, first);
    kept.(strokes := kept.strokes + StrokeOf(frames[i].v, cols, rows, frames[i].normal))
  }

  /** The screen is what a full redraw of the frame would show. */
  ghost predicate Faithful(frames: seq<Frame>, i: nat, first: Display, look: Look, screen: Grid)
    requires IsSession(frames, first) && i < |frames|
  {
    var (cols, rows) := SizeAt(frames, i, first);
    screen == Shown(frames[i].v, cols, rows, frames[i].normal, frames[i].bold, look)
  }

  /**
    Read off the frames alone: below a text row, the status attribute is the one the
    status was last drawn with; on a single row, the cursors drawn since then leave
    no trace beside or under this frame's.
   */
  ghost predicate Right(frames: seq<Frame>, i: nat, first: Display, look: Look)
    requires IsSession(frames, first) && i < |frames|
  {
    var (cols, rows) := SizeAt(frames, i, first);
    ShowsRight(frames[i].v, cols, rows, frames[i].normal, frames[i].bold, KeptBefore(frames, i, first), look)
  }

  /** The screen is the full redraw exactly when the frame is right. */
  ghost predicate Settled(frames: seq<Frame>, i: nat, first: Display, look: Look, screen: Grid)
    requires IsSession(frames, first) && i < |frames|
  {
    Faithful(frames, i, first, look, screen) <==> Right(frames, i, first, look)
  }

  // --------------------------------------------------------------- sessions

  /** Display and cache as they stand before frame `i`. */
  ghost predicate Before(sink: Sink, cache: Cache, frames: seq<Frame>, i: nat, first: Display, look: Look)
    requires IsSession(frames, first) && i <= |frames|
    reads sink, cache
  {
    && InStep(sink, cache) && sink.look == look
    && (sink.cols, sink.rows) == (if i == 0 then (first.cols, first.rows) else SizeAt(frames, i - 1, first))
    && (cache.valid <==> i > 0)
    && (i > 0 ==>
          && SameSize(sink, cache) && cache.kept == KeptAfter(frames, i - 1, first)
          && cache.statusLine == frames[i - 1].v.status && cache.scrollOffset == frames[i - 1].v.scroll)
  }

  /** The host's part: the display is replaced, and a new one of the same size invalidates the cache. */
  method PutDisplay(sink: Sink, cache: Cache, d: Display)
    requires InStep(sink, cache) && HasCells(d) && (cache.valid ==> SameSize(sink, cache))
    modifies sink, cache`valid
    ensures InStep(sink, cache) && sink.cols == d.cols && sink.rows == d.rows
    ensures !cache.valid || !SameSize(sink, cache)
  {
    if d.cols == sink.cols && d.rows == sink.rows {
      cache.Invalidate();
    }
    sink.Replace(d.cols, d.rows, d.grid);
  }

  /** One frame of a session. */
  method RenderFrame(sink: Sink, cache: Cache, frames: seq<Frame>, i: nat, ghost first: Display, ghost look: Look)
    requires IsSession(frames, first) && i < |frames| && Before(sink, cache, frames, i, first, look)
    modifies sink, cache
    ensures Before(sink, cache, frames, i + 1, first, look)
    ensures Settled(frames, i, first, look, sink.grid)
  {
    var f := frames[i];
    if f.replaced.Some? {
      PutDisplay(sink, cache, f.replaced.value);
    }
    var drawn := RenderEditor(sink, cache, f.v, f.normal, f.bold, f.force);
    assert drawn <==> DrawsStatus(frames, i);
  }

  /** Below a text row throughout, with a status attribute that changes only with a forced redraw or a new display. */
  ghost predicate Steady(frames: seq<Frame>, first: Display)
    requires IsSession(frames, first)
  {
    && (forall i :: 0 <= i < |frames| ==> SizeAt(frames, i, first).1 > 1)
    && (forall i :: 0 < i < |frames| ==>
          frames[i].bold == frames[i - 1].bold || frames[i].force || frames[i].replaced.Some?)
  }

  lemma {:induction false} SteadyKeepsBold(frames: seq<Frame>, i: nat, first: Display)
    requires IsSession(frames, first) && Steady(frames, first) && i < |frames|
    ensures KeptBefore(frames, i, first).bold == frames[i].bold
    decreases i
  {
    if !DrawsStatus(frames, i) {
      SteadyKeepsBold(frames, i - 1, first);
    }
  }

  /** In a steady session every frame is right. */
  lemma SteadyIsRight(frames: seq<Frame>, first: Display, look: Look)
    requires IsSession(frames, first) && Steady(frames, first)
    ensures forall i :: 0 <= i < |frames| ==> Right(frames, i, first, look)
  {
    forall i | 0 <= i < |frames| ensures Right(frames, i, first, look) {
      SteadyKeepsBold(frames, i, first);
    }
  }

  /**
    Incremental rendering against full redraw: through any sequence of editor states,
    scrolls, status changes, cursor moves, attributes, resizes, overpaintings and
    force flags, the display after a frame shows what a full redraw of that state
    would show exactly when the frame is right; a steady session's frames all are.
   */
  method RenderSession(frames: seq<Frame>, first: Display, look: Look) returns (screens: seq<Grid>)
    requires IsSession(frames, first)
    ensures |screens| == |frames|
    ensures forall i :: 0 <= i < |frames| ==> Settled(frames, i, first, look, screens[i])
    ensures Steady(frames, first) ==>
              forall i :: 0 <= i < |frames| ==> Faithful(frames, i, first, look, screens[i])
  {
    screens := RenderAll(frames, first, look);
    if Steady(frames, first) {
      SteadyIsRight(frames, first, look);
    }
  }

  method Open(frames: seq<Frame>, first: Display, look: Look) returns (sink: Sink, cache: Cache)
    requires IsSession(frames, first)
    ensures fresh(sink) && fresh(cache) && Before(sink, cache, frames, 0, first, look)
  {
    sink := new Sink(first.cols, first.rows, first.grid, look);
    cache := new Cache();
  }

  ghost predicate AllSettled(frames: seq<Frame>, first: Display, look: Look, screens: seq<Grid>)
    requires IsSession(frames, first)
  {
    |screens| <= |frames| && forall i :: 0 <= i < |screens| ==> Settled(frames, i, first, look, screens[i])
  }

  /** One more frame for the display, the cache and the record of screens. */
  method RenderNext(sink: Sink, cache: Cache, frames: seq<Frame>, first: Display, look: Look, screens: seq<Grid>)
    returns (screens': seq<Grid>)
    requires IsSession(frames, first) && AllSettled(frames, first, look, screens)
    requires |screens| < |frames| && Before(sink, cache, frames, |screens|, first, look)
    modifies sink, cache
    ensures |screens'| == |screens| + 1 && AllSettled(frames, first, look, screens')
    ensures Before(sink, cache, frames, |screens'|, first, look)
  {
    RenderFrame(sink, cache, frames, |screens|, first, look);
    screens' := screens + [sink.grid];
  }

  method RenderAll(frames: seq<Frame>, first: Display, look: Look) returns (screens: seq<Grid>)
    requires IsSession(frames, first)
    ensures |screens| == |frames| && AllSettled(frames, first, look, screens)
  {
    var sink, cache := Open(frames, first, look);
    screens := [];
    while |screens| < |frames|
      invariant AllSettled(frames, first, look, screens)
      invariant Before(sink, cache, frames, |screens|, first, look)
    {
      screens := RenderNext(sink, cache, frames, first, look, screens);
    }
  }

  // --------------------------------------------------- a screen of one row

  /** The cursor's column in frame `i` of a one-row session. */
  ghost function ColumnAt(frames: seq<Frame>, i: nat, first: Display): Option<nat>
    requires IsSession(frames, first) && i < |frames|
  {
    var (cols, rows) := SizeAt(frames, i, first);
    var at := CursorAt(frames[i].v, cols, rows);
    if at.None? then None else Some(at.value.0)
  }

  /** Some frame after the one that last drew the status, up to frame `i`, had its cursor in the column. */
  ghost predicate Visited(frames: seq<Frame>, i: nat, first: Display, c: nat)
    requires IsSession(frames, first) && i < |frames|
  {
    ColumnAt(frames, i, first) == Some(c) || (!DrawsStatus(frames, i) && Visited(frames, i - 1, first, c))
  }

  /** No frame's cursor attribute, swapped, is the status attribute of frame `i`. */
  ghost predicate CursorsVisible(frames: seq<Frame>, i: nat, bold: byte)
    requires i < |frames|
  {
    forall k :: 0 <= k <= i ==> Swapped(frames[k].normal) != bold
  }

  /** On one row, the strokes kept are the columns visited, in the frames' attributes. */
  lemma {:induction false} StrokesAreVisits(frames: seq<Frame>, i: nat, first: Display, c: nat, bold: byte)
    requires IsSession(frames, first) && i < |frames| && SizeAt(frames, i, first).1 == 1
    ensures var last := LastAt(KeptAfter(frames, i, first).strokes, c);
            && (last.Some? <==> Visited(frames, i, first, c))
            && (last.Some? && CursorsVisible(frames, i, bold) ==> Swapped(last.value) != bold)
    decreases i
  {
    var cols := SizeAt(frames, i, first).0;
    var kept, stroke := KeptBefore(frames, i, first), StrokeOf(frames[i].v, cols, 1, frames[i].normal);
    if !DrawsStatus(frames, i) {
      StrokesAreVisits(frames, i - 1, first, c, bold);
    }
    if stroke == [] {
      assert kept.strokes + stroke == kept.strokes;
    } else {
      LastJoins(kept.strokes, stroke[0], c);
    }
  }

  /**
    On a VGA screen of one row whose cursors are visible against the status: a frame
    shows right exactly when, beside its own cursor, the cursor has been in no column
    since the status was last drawn, and the status attribute is still the one drawn.
   */
  lemma VgaRightIff(frames: seq<Frame>, i: nat, first: Display)
    requires IsSession(frames, first) && i < |frames| && SizeAt(frames, i, first).1 == 1
    requires CursorsVisible(frames, i, frames[i].bold)
    ensures Right(frames, i, first, VgaLook) <==>
            forall c :: 0 <= c < SizeAt(frames, i, first).0 && ColumnAt(frames, i, first) != Some(c) ==>
              !Visited(frames, i, first, c) && KeptBefore(frames, i, first).bold == frames[i].bold
  {
    var f, cols, kept := frames[i], SizeAt(frames, i, first).0, KeptBefore(frames, i, first);
    VgaTraceFree(f.v, cols, f.normal, f.bold, kept);
    forall c | 0 <= c < cols && ColumnAt(frames, i, first) != Some(c)
      ensures CursorAt(f.v, cols, 1) != Some((c, 0))
      ensures VgaPlain(f.v, f.bold, kept, c) <==> !Visited(frames, i, first, c) && kept.bold == f.bold
    {
      if !DrawsStatus(frames, i) {
        StrokesAreVisits(frames, i - 1, first, c, f.bold);
      }
    }
    assert forall c :: 0 <= c < cols && CursorAt(f.v, cols, 1) != Some((c, 0)) ==>
        ColumnAt(frames, i, first) != Some(c);
  }

  /** Three frames on a VGA screen of one row: the cursor moves from the first column to the second and stays. */
  function MovingCursor(): seq<Frame> {
    var at := (c: nat) => Frame(View([""], 0, Some((c, 0)), "ok"), 7, 15, false, None);
    [at(0), at(1), at(1)]
  }

  const NARROW := Display(2, 1, [[EMPTY_CELL, EMPTY_CELL]])

  /** The first cursor is never taken off, so both later frames are wrong. */
  method OneRowCounterexample() returns (screens: seq<Grid>)
    ensures IsSession(MovingCursor(), NARROW) && |screens| == 3
    ensures Faithful(MovingCursor(), 0, NARROW, VgaLook, screens[0])
    ensures !Faithful(MovingCursor(), 1, NARROW, VgaLook, screens[1])
    ensures !Faithful(MovingCursor(), 2, NARROW, VgaLook, screens[2])
  {
    screens := RenderSession(MovingCursor(), NARROW, VgaLook);
    MovingCursorIsWrong();
    assert Settled(MovingCursor(), 0, NARROW, VgaLook, screens[0]);
    assert Settled(MovingCursor(), 1, NARROW, VgaLook, screens[1]);
    assert Settled(MovingCursor(), 2, NARROW, VgaLook, screens[2]);
  }

  lemma MovingCursorIsWrong()
    ensures IsSession(MovingCursor(), NARROW)
    ensures Right(MovingCursor(), 0, NARROW, VgaLook)
    ensures !Right(MovingCursor(), 1, NARROW, VgaLook) && !Right(MovingCursor(), 2, NARROW, VgaLook)
  {
    var frames := MovingCursor();
    VgaRightIff(frames, 0, NARROW);
    VgaRightIff(frames, 1, NARROW);
    VgaRightIff(frames, 2, NARROW);
    assert Visited(frames, 0, NARROW, 0);
    assert Visited(frames, 1, NARROW, 0);
    assert Visited(frames, 2, NARROW, 0);
  }
}
