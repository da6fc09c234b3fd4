/** The editor in its viewport: bytes come in, and the text scrolls to keep the cursor in view. */
module EditorHost {
  import opened Common
  import opened TextBuffer
  import opened Editor
  import opened EditorRuns
  import opened EditorTyping
  import EditorCore

  /** The editor and the rows of text its viewport shows, from the scroll offset on. */
  datatype Host = Host(e: State, scroll: nat, rows: nat)

  function Adjusted(scroll: nat, rows: nat, row: nat): nat
    requires rows > 0
  {
    if row < scroll then row
    else if row >= scroll + rows then Max(row - (rows - 1), 0)
    else scroll
  }

  /** One byte: a key for the editor, and a new scroll offset only when the editor says it changed. */
  function Processed(h: Host, c: char): Host
    requires InText(h.e.lines, h.e.cursor) && h.rows > 0
  {
    if KeyOf(c).None? then h
    else
      var (e', outcome) := Pressed(h.e, KeyOf(c).value);
      Host(e', if outcome == Changed then Adjusted(h.scroll, h.rows, e'.cursor.row) else h.scroll, h.rows)
  }

  predicate Within(scroll: nat, rows: nat, row: nat) {
    scroll <= row < scroll + rows
  }

  predicate InView(h: Host) {
    Within(h.scroll, h.rows, h.e.cursor.row)
  }

  /** The adjusted offset shows the row, and no offset nearer to the old one does. */
  lemma AdjustedIsNearest(scroll: nat, rows: nat, row: nat, other: nat)
    requires rows > 0
    ensures Within(Adjusted(scroll, rows, row), rows, row)
    ensures Within(other, rows, row) && other != Adjusted(scroll, rows, row) ==>
              Distance(Adjusted(scroll, rows, row), scroll) < Distance(other, scroll)
  {
  }

  function Distance(a: nat, b: nat): nat {
    if a <= b then b - a else a - b
  }

  /** After a byte the cursor is in view exactly when the key changed something, or left the cursor in the old view. */
  lemma InViewIff(h: Host, c: char)
    requires InText(h.e.lines, h.e.cursor) && h.rows > 0
    ensures var h' := Processed(h, c);
            InView(h') <==>
            (KeyOf(c).Some? && Pressed(h.e, KeyOf(c).value).1 == Changed) || Within(h.scroll, h.rows, h'.e.cursor.row)
  {
  }

  /** The byte undoes: the one way to move the cursor without scrolling after it. */
  predicate Undoes(e: State, c: char) {
    e.mode == Normal && c == 'u'
  }

  lemma ByteKeepsView(h: Host, c: char)
    requires InText(h.e.lines, h.e.cursor) && h.rows > 0 && InView(h) && !Undoes(h.e, c)
    ensures InView(Processed(h, c))
  {
    if KeyOf(c).Some? {
      OnlyChangedMoves(h.e, KeyOf(c).value);
    }
  }

  lemma OnlyChangedMoves(e: State, key: Key)
    requires InText(e.lines, e.cursor) && !IsTimeTravel(e.mode, key)
    ensures Pressed(e, key).1 != Changed ==> Pressed(e, key).0.cursor == e.cursor
  {
  }

  /** Bytes one after another. */
  ghost function ProcessedAll(h: Host, text: string): Host
    requires Sound(h.e) && h.rows > 0
    decreases |text|
  {
    if text == "" then h
    else
      if KeyOf(text[0]).Some? then
        PressKeepsSound(h.e, KeyOf(text[0]).value);
        ProcessedAll(Processed(h, text[0]), text[1..])
      else
        ProcessedAll(h, text[1..])
  }

  /** None of the bytes undoes when its turn comes. */
  ghost predicate NeverUndoes(h: Host, text: string)
    requires Sound(h.e) && h.rows > 0
    decreases |text|
  {
    text == "" ||
    (&& !Undoes(h.e, text[0])
     && if KeyOf(text[0]).Some? then
          PressKeepsSound(h.e, KeyOf(text[0]).value);
          NeverUndoes(Processed(h, text[0]), text[1..])
        else NeverUndoes(h, text[1..]))
  }

  /** Through any bytes that do not undo, a cursor in view stays in view. */
  lemma {:induction false} CursorStaysInView(h: Host, text: string)
    requires Sound(h.e) && h.rows > 0 && InView(h) && NeverUndoes(h, text)
    ensures InView(ProcessedAll(h, text))
    decreases |text|
  {
    if text != "" {
      if KeyOf(text[0]).Some? {
        PressKeepsSound(h.e, KeyOf(text[0]).value);
        ByteKeepsView(h, text[0]);
        CursorStaysInView(Processed(h, text[0]), text[1..]);
      } else {
        CursorStaysInView(h, text[1..]);
      }
    }
  }

  /** Undoing a change made further down leaves the cursor out of view. */
  lemma UndoCanHideCursor()
    ensures var e := EMPTY.(undo := [Snapshot(["a", "b", "c"], Position(2, 0))]); var h := Host(e, 0, 2);
            Sound(e) && InView(h) && !InView(Processed(h, 'u'))
  {
  }

  // ------------------------------------------------- the host as an object

  class MinimalEditor {
    const core: EditorCore.Core
    var scrollOffset: nat
    const viewportRows: nat

    ghost predicate Valid()
      reads this, core, core.buffer
    {
      core.Valid() && Sound(core.View()) && viewportRows > 0
    }

    ghost function View(): Host
      reads this, core, core.buffer
    {
      Host(core.View(), scrollOffset, viewportRows)
    }

    constructor (viewportRows: nat)
      requires viewportRows > 0
      ensures Valid() && View() == Host(EMPTY, 0, viewportRows) && fresh(core) && fresh(core.buffer)
    {
      core := new EditorCore.Core();
      scrollOffset, this.viewportRows := 0, viewportRows;
    }

    /** Scrolls only as far as the cursor needs. */
    method AdjustViewport()
      requires viewportRows > 0
      modifies this`scrollOffset
      ensures scrollOffset == Adjusted(old(scrollOffset), viewportRows, core.cursor.row)
    {
      var row := core.cursor.row;
      if row < scrollOffset {
        scrollOffset := row;
      } else if row >= scrollOffset + viewportRows {
        scrollOffset := Max(row - (viewportRows - 1), 0);
      }
    }

    method ProcessByte(c: char) returns (quit: bool)
      requires Valid()
      modifies this`scrollOffset, core, core.buffer
      ensures Valid() && View() == Processed(old(View()), c)
      ensures quit <==> KeyOf(c).Some? && Pressed(old(core.View()), KeyOf(c).value).1.RequestExit?
    {
      var key := KeyOf(c);
      if key.None? {
        return false;
      }
      PressKeepsSound(core.View(), key.value);
      var outcome := core.ApplyKey(key.value);
      if outcome == Changed {
        AdjustViewport();
      }
      quit := outcome.RequestExit?;
    }
  }
}
