/**
  What the renderer may rely on: text entered by keyboard keys and loaded files
  never has a newline inside a line, in any reachable state or snapshot.
 */
module EditorScreen {
  import opened Common
  import opened TextBuffer
  import opened Editor
  import opened EditorRuns
  import Screen
  import Renderer
  import R = RenderRuns

  ghost predicate Unbroken(lines: Lines) {
    forall i :: 0 <= i < |lines| ==> '\n' !in lines[i]
  }

  ghost predicate AllUnbroken(e: State) {
    && Unbroken(e.lines)
    && (forall i :: 0 <= i < |e.undo| ==> Unbroken(e.undo[i].lines))
    && (forall i :: 0 <= i < |e.redo| ==> Unbroken(e.redo[i].lines))
  }

  /** A key as the keyboard translation produces them: characters are printable. */
  predicate FromKeyboard(key: Key) {
    key.Char? ==> ' ' <= key.ch <= '~'
  }

  predicate Typed(event: Event) {
    event.Press? ==> FromKeyboard(event.key)
  }

  lemma EditsStayUnbroken(e: State, ch: char)
    requires InText(e.lines, e.cursor) && Unbroken(e.lines) && ch != '\n'
    ensures Unbroken(CharInserted(e.lines, e.cursor, ch))
    ensures Unbroken(LineSplit(e.lines, e.cursor))
    ensures e.cursor.col < |e.lines[e.cursor.row]| ==> Unbroken(CharDeleted(e.lines, e.cursor))
    ensures Unbroken(LineDeleted(e.lines, e.cursor.row))
  {
  }

  lemma BackSpaceStaysUnbroken(lines: Lines, p: Position)
    requires InText(lines, p) && Unbroken(lines) && BackSpaced(lines, p).Some?
    ensures Unbroken(BackSpaced(lines, p).value.0)
  {
  }

  lemma EditedStaysUnbroken(e: State, result: Option<(Lines, Position)>)
    requires AllUnbroken(e) && (result.Some? ==> Unbroken(result.value.0))
    ensures AllUnbroken(Edited(e, result).0)
  {
  }

  lemma EditKeyStaysUnbroken(e: State, key: Key)
    requires AllUnbroken(e) && InText(e.lines, e.cursor) && FromKeyboard(key) && IsEdit(e.mode, key)
    ensures AllUnbroken(Pressed(e, key).0)
  {
    EditsStayUnbroken(e, if Types(key).Some? then Types(key).value else ' ');
    if e.mode == Normal {
      if key == X {
        EditedStaysUnbroken(e, Cut(e));
      } else {
        EditedStaysUnbroken(e, LineCut(e));
      }
    } else if Types(key).Some? {
      EditedStaysUnbroken(e, Editor.Typed(e, Types(key).value));
    } else if key == Enter {
      EditedStaysUnbroken(e, Broken(e));
    } else {
      if BackSpaced(e.lines, e.cursor).Some? {
        BackSpaceStaysUnbroken(e.lines, e.cursor);
      }
      EditedStaysUnbroken(e, BackSpaced(e.lines, e.cursor));
    }
  }

  lemma KeyStaysUnbroken(e: State, key: Key)
    requires AllUnbroken(e) && InText(e.lines, e.cursor) && FromKeyboard(key)
    ensures AllUnbroken(Pressed(e, key).0)
  {
    if IsEdit(e.mode, key) {
      EditKeyStaysUnbroken(e, key);
    } else if !IsTimeTravel(e.mode, key) {
      QuietKeysKeepStacks(e, key);
    }
  }

  lemma {:induction false} RunStaysUnbroken(s: Session, events: seq<Event>)
    requires Reachable(s) && AllUnbroken(s.e) && forall i :: 0 <= i < |events| ==> Typed(events[i])
    ensures IsRun(s, events) && AllUnbroken(Run(s, events).e)
    decreases |events|
  {
    if events != [] {
      StepKeepsReachable(s, events[0]);
      match events[0] {
        case Press(key) => KeyStaysUnbroken(s.e, key);
        case Load(text) => FromStringHasLine(text);
        case MarkSaved =>
      }
      RunStaysUnbroken(Step(s, events[0]), events[1..]);
    }
  }

  /** The picture of an editor state in a viewport. */
  function ViewOf(e: State, scroll: nat, viewportRows: nat, status: string): Screen.View {
    Screen.View(e.lines, scroll,
                if scroll <= e.cursor.row < scroll + viewportRows
                    then Some((e.cursor.col, e.cursor.row - scroll)) else None,
                status)
  }

  /** The character of the text at a row and column, blank past a line or the text. */
  function CharAt(lines: Lines, row: nat, col: nat): char {
    if row < |lines| && col < |lines[row]| then lines[row][col] else ' '
  }

  /** Column `c` and row `r` of the screen hold the cursor, kept within the text rows. */
  predicate CursorHere(e: State, scroll: nat, viewportRows: nat, cols: nat, rows: nat, c: nat, r: nat) {
    && scroll <= e.cursor.row < scroll + viewportRows
    && c == Min(e.cursor.col, cols - 1) && r == Min(e.cursor.row - scroll, rows - 2)
  }

  /** The screen shows the text from the scroll offset on, the cursor over it, and the status below. */
  ghost predicate ShowsText(screen: Screen.Grid, e: State, scroll: nat, viewportRows: nat, status: string,
                            cols: nat, rows: nat, normal: byte, bold: byte, look: Screen.Look) {
    && rows > 1 && Screen.Shaped(screen, cols, rows)
    && (forall r, c :: 0 <= r < rows - 1 && 0 <= c < cols ==>
          var plain := Screen.Cell(CharAt(e.lines, scroll + r, c), normal);
          screen[r][c] == if CursorHere(e, scroll, viewportRows, cols, rows, c, r) then look(plain, normal) else plain)
    && (forall c :: 0 <= c < cols ==>
          screen[rows - 1][c] == Screen.Cell(if c < |status| then status[c] else ' ', bold))
  }

  /** A full redraw of an editor state shows its text. */
  lemma RedrawShowsText(e: State, scroll: nat, viewportRows: nat, status: string,
                        cols: nat, rows: nat, normal: byte, bold: byte, look: Screen.Look)
    requires cols > 0 && rows > 1
    ensures var v := ViewOf(e, scroll, viewportRows, status);
            ShowsText(Screen.Shown(v, cols, rows, normal, bold, look), e, scroll, viewportRows, status,
                      cols, rows, normal, bold, look)
  {
    var v := ViewOf(e, scroll, viewportRows, status);
    var plain := Screen.Plain(v, cols, rows, normal, bold);
    forall r, c | 0 <= r < rows - 1 && 0 <= c < cols
      ensures plain[r][c] == Screen.Cell(CharAt(e.lines, scroll + r, c), normal)
    {
      assert plain[r] == Screen.RowOf(Screen.LineAt(v, r), cols, normal);
    }
  }

  /** So does every right frame of a session that renders it. */
  lemma RightFrameShowsText(frames: seq<R.Frame>, i: nat, first: R.Display, look: Screen.Look, screen: Screen.Grid,
                            e: State, viewportRows: nat)
    requires R.IsSession(frames, first) && i < |frames| && R.SizeAt(frames, i, first).1 > 1
    requires R.Settled(frames, i, first, look, screen) && R.Right(frames, i, first, look)
    requires var v := frames[i].v; v == ViewOf(e, v.scroll, viewportRows, v.status)
    ensures var (f, (cols, rows)) := (frames[i], R.SizeAt(frames, i, first));
            ShowsText(screen, e, f.v.scroll, viewportRows, f.v.status, cols, rows, f.normal, f.bold, look)
  {
    var (cols, rows) := R.SizeAt(frames, i, first);
    RedrawShowsText(e, frames[i].v.scroll, viewportRows, frames[i].v.status, cols, rows,
                    frames[i].normal, frames[i].bold, look);
  }

  /** A cursor inside the text rows and columns stands on the very character it is at. */
  lemma CursorOnItsCharacter(screen: Screen.Grid, e: State, scroll: nat, viewportRows: nat, status: string,
                             cols: nat, rows: nat, normal: byte, bold: byte, look: Screen.Look)
    requires ShowsText(screen, e, scroll, viewportRows, status, cols, rows, normal, bold, look)
    requires scroll <= e.cursor.row < scroll + Min(viewportRows, rows - 1) && e.cursor.col < cols
    ensures screen[e.cursor.row - scroll][e.cursor.col] ==
            look(Screen.Cell(CharAt(e.lines, e.cursor.row, e.cursor.col), normal), normal)
  {
    assert CursorHere(e, scroll, viewportRows, cols, rows, e.cursor.col, e.cursor.row - scroll);
  }

  /** Every state reached by keyboard keys, loads and saves can be handed to the renderer. */
  lemma ReachableStatesArePrintable(events: seq<Event>, scroll: nat, viewportRows: nat, status: string)
    requires (forall i :: 0 <= i < |events| ==> Typed(events[i])) && '\n' !in status
    ensures IsRun(OPENED, events)
    ensures Renderer.Printable(ViewOf(Run(OPENED, events).e, scroll, viewportRows, status))
  {
    RunStaysUnbroken(OPENED, events);
  }
}
