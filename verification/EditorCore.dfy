/** The editor object: key handlers that change mode, text, cursor and stacks in place. */
module EditorCore {
  import opened Common
  import opened TextBuffer
  import opened Editor
  import Search

  class Core {
    var mode: Mode
    const buffer: Buffer
    var cursor: Position
    var dirty: bool
    var commandBuffer: string
    var searchQuery: string
    var lastSearch: Option<string>
    var undoStack: seq<Snapshot>
    var redoStack: seq<Snapshot>

    ghost function View(): State
      reads this, buffer
    {
      State(mode, buffer.lines, cursor, dirty, commandBuffer, searchQuery, lastSearch, undoStack, redoStack)
    }

    ghost predicate Valid()
      reads this, buffer
    {
      InText(buffer.lines, cursor)
    }

    constructor ()
      ensures Valid() && View() == EMPTY && fresh(buffer)
    {
      mode, cursor, dirty := Normal, Position(0, 0), false;
      commandBuffer, searchQuery, lastSearch := "", "", None;
      undoStack, redoStack := [], [];
      buffer := new Buffer();
    }

    method SaveUndoSnapshot()
      modifies this`undoStack, this`redoStack
      ensures View() == Remembered(old(View()))
    {
      undoStack := undoStack + [Snapshot(buffer.lines, cursor)];
      redoStack := [];
      if |undoStack| > MAX_UNDO_STACK {
        undoStack := undoStack[1..];
      }
    }

    method Undo() returns (changed: bool)
      modifies this, buffer
      ensures View() == Undone(old(View()))
      ensures changed <==> old(undoStack) != []
    {
      if undoStack == [] {
        return false;
      }
      var snapshot := undoStack[|undoStack| - 1];
      undoStack := undoStack[..|undoStack| - 1];
      redoStack := redoStack + [Snapshot(buffer.lines, cursor)];
      buffer.lines := snapshot.lines;
      cursor := snapshot.cursor;
      dirty := true;
      return true;
    }

    method Redo() returns (changed: bool)
      modifies this, buffer
      ensures View() == Redone(old(View()))
      ensures changed <==> old(redoStack) != []
    {
      if redoStack == [] {
        return false;
      }
      var snapshot := redoStack[|redoStack| - 1];
      redoStack := redoStack[..|redoStack| - 1];
      undoStack := undoStack + [Snapshot(buffer.lines, cursor)];
      buffer.lines := snapshot.lines;
      cursor := snapshot.cursor;
      dirty := true;
      return true;
    }

    method ClampCursor()
      modifies this`cursor
      ensures cursor == Clamped(buffer.lines, old(cursor))
    {
      var length := LineLength(buffer.lines, cursor.row);
      if cursor.col > length {
        cursor := Position(cursor.row, length);
      }
    }

    method MoveUp()
      modifies this`cursor
      ensures cursor == MovedUp(old(View()))
    {
      if cursor.row > 0 {
        cursor := Position(cursor.row - 1, cursor.col);
        ClampCursor();
      }
    }

    method MoveDown()
      modifies this`cursor
      ensures cursor == MovedDown(old(View()))
    {
      if cursor.row + 1 < |buffer.lines| {
        cursor := Position(cursor.row + 1, cursor.col);
        ClampCursor();
      }
    }

    method MoveLeft()
      modifies this`cursor
      ensures cursor == MovedLeft(old(cursor))
    {
      if cursor.col > 0 {
        cursor := Position(cursor.row, cursor.col - 1);
      }
    }

    method MoveRight()
      modifies this`cursor
      ensures cursor == MovedRight(old(View()))
    {
      if cursor.col < LineLength(buffer.lines, cursor.row) {
        cursor := Position(cursor.row, cursor.col + 1);
      }
    }

    method FindNext() returns (found: bool)
      requires Valid()
      modifies this`cursor, this`lastSearch
      ensures View() == Searched(old(View()))
      ensures found <==> Hit(old(View())).Some?
    {
      var query;
      if searchQuery != "" {
        lastSearch := Some(searchQuery);
        query := searchQuery;
      } else if lastSearch.Some? {
        query := lastSearch.value;
      } else {
        return false;
      }
      if query == "" {
        return false;
      }
      var hit := Search.Find(buffer.lines, cursor, query, searchQuery == "");
      if hit.None? {
        return false;
      }
      cursor := hit.value;
      return true;
    }

    method TypeChar(ch: char) returns (outcome: Outcome)
      modifies this, buffer
      ensures (View(), outcome) == Edited(old(View()), Typed(old(View()), ch))
    {
      SaveUndoSnapshot();
      var ok := buffer.InsertChar(cursor, ch);
      if !ok {
        return Continue;
      }
      cursor := Position(cursor.row, cursor.col + 1);
      dirty := true;
      return Changed;
    }

    method BreakLine() returns (outcome: Outcome)
      modifies this, buffer
      ensures (View(), outcome) == Edited(old(View()), Broken(old(View())))
    {
      SaveUndoSnapshot();
      var ok := buffer.InsertNewline(cursor);
      if !ok {
        return Continue;
      }
      cursor := Position(cursor.row + 1, 0);
      dirty := true;
      return Changed;
    }

    method EraseBack() returns (outcome: Outcome)
      requires Valid()
      modifies this, buffer
      ensures (View(), outcome) == Edited(old(View()), BackSpaced(old(buffer.lines), old(cursor)))
    {
      SaveUndoSnapshot();
      var moved := buffer.BackSpace(cursor);
      if moved.None? {
        return Continue;
      }
      cursor := moved.value;
      dirty := true;
      return Changed;
    }

    method CutChar() returns (outcome: Outcome)
      modifies this, buffer
      ensures (View(), outcome) == Edited(old(View()), Cut(old(View())))
    {
      SaveUndoSnapshot();
      var ok := buffer.DeleteChar(cursor);
      if !ok {
        return Continue;
      }
      dirty := true;
      return Changed;
    }

    method CutLine() returns (outcome: Outcome)
      modifies this, buffer
      ensures (View(), outcome) == Edited(old(View()), LineCut(old(View())))
    {
      SaveUndoSnapshot();
      var ok := buffer.DeleteLine(cursor.row);
      if !ok {
        return Continue;
      }
      dirty := true;
      if cursor.row >= |buffer.lines| {
        cursor := Position(|buffer.lines| - 1, cursor.col);
      }
      ClampCursor();
      return Changed;
    }

    method HandleNormalMode(key: Key) returns (outcome: Outcome)
      requires Valid()
      modifies this, buffer
      ensures (View(), outcome) == NormalKey(old(View()), key)
    {
      outcome := Changed;
      match key {
        case I =>
          mode := Insert;
        case A =>
          MoveRight();
          mode := Insert;
        case H => MoveLeft();
        case Left => MoveLeft();
        case J => MoveDown();
        case Down => MoveDown();
        case K => MoveUp();
        case Up => MoveUp();
        case L => MoveRight();
        case Right => MoveRight();
        case X => outcome := CutChar();
        case D => outcome := CutLine();
        case U =>
          var changed := Undo();
          outcome := StatusMessage(if changed then "Undo" else "Already at oldest change");
        case CtrlR =>
          var changed := Redo();
          outcome := StatusMessage(if changed then "Redo" else "Already at newest change");
        case Colon =>
          mode := Command;
          commandBuffer := "";
        case Slash =>
          mode := Searching;
          searchQuery := "";
        case N =>
          var found := FindNext();
          outcome := if found then Changed else StatusMessage("Pattern not found");
        case _ =>
          outcome := Continue;
      }
    }

    method HandleInsertMode(key: Key) returns (outcome: Outcome)
      requires Valid()
      modifies this, buffer
      ensures (View(), outcome) == InsertKey(old(View()), key)
    {
      if Types(key).Some? {
        outcome := TypeChar(Types(key).value);
      } else if key == Escape {
        mode := Normal;
        MoveLeft();
        ClampCursor();
        outcome := Changed;
      } else if key == Enter {
        outcome := BreakLine();
      } else if key == Backspace {
        outcome := EraseBack();
      } else {
        outcome := Continue;
      }
    }

    method HandleCommandMode(key: Key) returns (outcome: Outcome)
      modifies this
      ensures (View(), outcome) == CommandKey(old(View()), key)
    {
      outcome := Changed;
      match key {
        case Escape =>
          mode := Normal;
          commandBuffer := "";
        case Enter =>
          outcome := Execute();
          if !outcome.RequestExit? {
            mode := Normal;
          }
        case Backspace =>
          if commandBuffer != "" {
            commandBuffer := commandBuffer[..|commandBuffer| - 1];
          }
        case Char(ch) =>
          commandBuffer := commandBuffer + [ch];
        case Space =>
          commandBuffer := commandBuffer + [' '];
        case _ =>
          outcome := Continue;
      }
    }

    method Execute() returns (outcome: Outcome)
      ensures outcome == ExecuteCommand(View())
      ensures outcome == RequestExit(false) ==> !dirty
    {
      match ParseCommand(commandBuffer) {
        case Quit(force) =>
          if dirty && !force {
            outcome := StatusMessage("No write since last change (use :q! to override)");
          } else {
            outcome := RequestExit(force);
          }
        case Write => outcome := RequestIo(Save);
        case WriteAs(path) => outcome := RequestIo(SaveAs(path));
        case WriteQuit =>
          if dirty {
            outcome := RequestIo(SaveAndQuit);
          } else {
            outcome := RequestExit(false);
          }
        case Unknown(text) => outcome := StatusMessage("Unknown command: " + text);
      }
    }

    method HandleSearchMode(key: Key) returns (outcome: Outcome)
      requires Valid()
      modifies this
      ensures (View(), outcome) == SearchKey(old(View()), key)
    {
      outcome := Changed;
      match key {
        case Escape =>
          mode := Normal;
          searchQuery := "";
        case Enter =>
          var found := FindNext();
          outcome := if found then Changed else StatusMessage("Pattern not found");
          mode := Normal;
          searchQuery := "";
        case Backspace =>
          if searchQuery != "" {
            searchQuery := searchQuery[..|searchQuery| - 1];
          }
        case Char(ch) =>
          searchQuery := searchQuery + [ch];
        case Space =>
          searchQuery := searchQuery + [' '];
        case _ =>
          outcome := Continue;
      }
    }

    method ApplyKey(key: Key) returns (outcome: Outcome)
      requires Valid()
      modifies this, buffer
      ensures (View(), outcome) == Pressed(old(View()), key)
    {
      match mode {
        case Normal => outcome := HandleNormalMode(key);
        case Insert => outcome := HandleInsertMode(key);
        case Command => outcome := HandleCommandMode(key);
        case Searching => outcome := HandleSearchMode(key);
      }
    }

    method LoadContent(text: string)
      modifies this, buffer
      ensures View() == Loaded(old(View()), text) && Valid()
    {
      FromStringHasLine(text);
      buffer.lines := FromString(text);
      cursor := Position(0, 0);
      dirty := false;
      undoStack := [];
      redoStack := [];
    }

    method MarkSaved()
      modifies this`dirty
      ensures View() == old(View()).(dirty := false)
    {
      dirty := false;
    }
  }
}
