/** The modal editor as a state machine on values: what each key does. */
module Editor {
  import opened Common
  import opened TextBuffer
  import Search

  datatype Mode = Normal | Insert | Command | Searching

  datatype Key =
    | Char(ch: char)
    | Left | Right | Up | Down
    | Enter | Backspace | Delete | Escape | Tab | Space
    | H | J | K | L | I | A | X | D | U | N
    | Colon | Slash | CtrlR

  datatype IoRequest = Save | SaveAs(path: string) | SaveAndQuit

  datatype Outcome =
    | Continue
    | Changed
    | RequestExit(forced: bool)
    | StatusMessage(text: string)
    | RequestIo(request: IoRequest)

  datatype ParsedCommand = Quit(force: bool) | Write | WriteAs(path: string) | WriteQuit | Unknown(text: string)

  datatype Snapshot = Snapshot(lines: Lines, cursor: Position)

  datatype State = State(
    mode: Mode, lines: Lines, cursor: Position, dirty: bool,
    command: string, query: string, lastSearch: Option<string>,
    undo: seq<Snapshot>, redo: seq<Snapshot>)

  const MAX_UNDO_STACK: nat := 100

  const EMPTY := State(Normal, [""], Position(0, 0), false, "", "", None, [], [])

  // --------------------------------------------------------------- commands

  predicate IsSpace(c: char) {
    c == ' ' || c == '\t' || c == '\n' || c == '\r' || c == '\U{0B}' || c == '\U{0C}'
  }

  function TrimStart(s: string): string {
    if s != "" && IsSpace(s[0]) then TrimStart(s[1..]) else s
  }

  function TrimEnd(s: string): string {
    if s != "" && IsSpace(s[|s| - 1]) then TrimEnd(s[..|s| - 1]) else s
  }

  function Trim(s: string): string {
    TrimEnd(TrimStart(s))
  }

  function ParseCommand(text: string): ParsedCommand {
    var t := Trim(text);
    if t == "q" then Quit(false)
    else if t == "q!" then Quit(true)
    else if t == "w" then Write
    else if t == "wq" then WriteQuit
    else if "w " <= t then WriteAs(Trim(t[2..]))
    else Unknown(t)
  }

  function ExecuteCommand(e: State): Outcome {
    match ParseCommand(e.command)
    case Quit(force) =>
      if e.dirty && !force then StatusMessage("No write since last change (use :q! to override)") else RequestExit(force)
    case Write => RequestIo(Save)
    case WriteAs(path) => RequestIo(SaveAs(path))
    case WriteQuit => if e.dirty then RequestIo(SaveAndQuit) else RequestExit(false)
    case Unknown(text) => StatusMessage("Unknown command: " + text)
  }

  // ---------------------------------------------------------------- history

  function Now(e: State): Snapshot {
    Snapshot(e.lines, e.cursor)
  }

  /** Pushing the present drops the oldest snapshot beyond the limit, and every redo. */
  function Remembered(e: State): State {
    var pushed := e.undo + [Now(e)];
    e.(undo := if |pushed| > MAX_UNDO_STACK then pushed[1..] else pushed, redo := [])
  }

  function Undone(e: State): State {
    if e.undo == [] then e
    else
      var s := e.undo[|e.undo| - 1];
      e.(undo := e.undo[..|e.undo| - 1], redo := e.redo + [Now(e)], lines := s.lines, cursor := s.cursor, dirty := true)
  }

  function Redone(e: State): State {
    if e.redo == [] then e
    else
      var s := e.redo[|e.redo| - 1];
      e.(redo := e.redo[..|e.redo| - 1], undo := e.undo + [Now(e)], lines := s.lines, cursor := s.cursor, dirty := true)
  }

  // --------------------------------------------------------------- movement

  function Clamped(lines: Lines, p: Position): Position {
    if p.col > LineLength(lines, p.row) then Position(p.row, LineLength(lines, p.row)) else p
  }

  function MovedUp(e: State): Position {
    if e.cursor.row > 0 then Clamped(e.lines, Position(e.cursor.row - 1, e.cursor.col)) else e.cursor
  }

  function MovedDown(e: State): Position {
    if e.cursor.row + 1 < |e.lines| then Clamped(e.lines, Position(e.cursor.row + 1, e.cursor.col)) else e.cursor
  }

  function MovedLeft(p: Position): Position {
    if p.col > 0 then Position(p.row, p.col - 1) else p
  }

  function MovedRight(e: State): Position {
    if e.cursor.col < LineLength(e.lines, e.cursor.row) then Position(e.cursor.row, e.cursor.col + 1) else e.cursor
  }

  // ----------------------------------------------------------------- edits

  /** Every edit key first remembers the present, even when the edit then has nothing to do. */
  function Edited(e: State, result: Option<(Lines, Position)>): (State, Outcome) {
    match result
    case Some((lines, cursor)) => (Remembered(e).(lines := lines, cursor := cursor, dirty := true), Changed)
    case None => (Remembered(e), Continue)
  }

  function Typed(e: State, ch: char): Option<(Lines, Position)> {
    if InText(e.lines, e.cursor)
    then Some((CharInserted(e.lines, e.cursor, ch), Position(e.cursor.row, e.cursor.col + 1))) else None
  }

  function Broken(e: State): Option<(Lines, Position)> {
    if InText(e.lines, e.cursor) then Some((LineSplit(e.lines, e.cursor), Position(e.cursor.row + 1, 0))) else None
  }

  function Cut(e: State): Option<(Lines, Position)> {
    if InText(e.lines, e.cursor) && e.cursor.col < |e.lines[e.cursor.row]|
    then Some((CharDeleted(e.lines, e.cursor), e.cursor)) else None
  }

  function LineCut(e: State): Option<(Lines, Position)> {
    if e.cursor.row >= |e.lines| then None
    else
      var lines := LineDeleted(e.lines, e.cursor.row);
      var row := if e.cursor.row >= |lines| then |lines| - 1 else e.cursor.row;
      Some((lines, Clamped(lines, Position(row, e.cursor.col))))
  }

  // ----------------------------------------------------------------- search

  /** What to look for: the typed query, or the last one when none was typed. */
  function Query(e: State): Option<string> {
    if e.query != "" then Some(e.query) else e.lastSearch
  }

  function Hit(e: State): Option<Position>
    requires InText(e.lines, e.cursor)
  {
    var q := Query(e);
    if q.None? || q.value == "" then None else Search.FindNext(e.lines, e.cursor, q.value, e.query == "")
  }

  function Searched(e: State): State
    requires InText(e.lines, e.cursor)
  {
    e.(lastSearch := if e.query != "" then Some(e.query) else e.lastSearch,
       cursor := if Hit(e).Some? then Hit(e).value else e.cursor)
  }

  function SearchOutcome(e: State): Outcome
    requires InText(e.lines, e.cursor)
  {
    if Hit(e).Some? then Changed else StatusMessage("Pattern not found")
  }

  // ------------------------------------------------------------------- keys

  function NormalKey(e: State, key: Key): (State, Outcome)
    requires InText(e.lines, e.cursor)
  {
    match key
    case I => (e.(mode := Insert), Changed)
    case A => (e.(mode := Insert, cursor := MovedRight(e)), Changed)
    case H => (e.(cursor := MovedLeft(e.cursor)), Changed)
    case Left => (e.(cursor := MovedLeft(e.cursor)), Changed)
    case J => (e.(cursor := MovedDown(e)), Changed)
    case Down => (e.(cursor := MovedDown(e)), Changed)
    case K => (e.(cursor := MovedUp(e)), Changed)
    case Up => (e.(cursor := MovedUp(e)), Changed)
    case L => (e.(cursor := MovedRight(e)), Changed)
    case Right => (e.(cursor := MovedRight(e)), Changed)
    case X => Edited(e, Cut(e))
    case D => Edited(e, LineCut(e))
    case U => (Undone(e), StatusMessage(if e.undo != [] then "Undo" else "Already at oldest change"))
    case CtrlR => (Redone(e), StatusMessage(if e.redo != [] then "Redo" else "Already at newest change"))
    case Colon => (e.(mode := Command, command := ""), Changed)
    case Slash => (e.(mode := Searching, query := ""), Changed)
    case N => (Searched(e), SearchOutcome(e))
    case _ => (e, Continue)
  }

  /** The character a key types in insert mode, if it types one. */
  function Types(key: Key): Option<char> {
    match key
    case Char(ch) => Some(ch)
    case I => Some('i')
    case A => Some('a')
    case H => Some('h')
    case J => Some('j')
    case K => Some('k')
    case L => Some('l')
    case X => Some('x')
    case D => Some('d')
    case U => Some('u')
    case N => Some('n')
    case Space => Some(' ')
    case _ => None
  }

  function InsertKey(e: State, key: Key): (State, Outcome)
    requires InText(e.lines, e.cursor)
  {
    if Types(key).Some? then Edited(e, Typed(e, Types(key).value))
    else match key
      case Escape => (e.(mode := Normal, cursor := Clamped(e.lines, MovedLeft(e.cursor))), Changed)
      case Enter => Edited(e, Broken(e))
      case Backspace => Edited(e, BackSpaced(e.lines, e.cursor))
      case _ => (e, Continue)
  }

  function Popped(s: string): string {
    if s == "" then s else s[..|s| - 1]
  }

  function CommandKey(e: State, key: Key): (State, Outcome) {
    match key
    case Escape => (e.(mode := Normal, command := ""), Changed)
    case Enter =>
      var outcome := ExecuteCommand(e);
      (if outcome.RequestExit? then e else e.(mode := Normal), outcome)
    case Backspace => (e.(command := Popped(e.command)), Changed)
    case Char(ch) => (e.(command := e.command + [ch]), Changed)
    case Space => (e.(command := e.command + [' ']), Changed)
    case _ => (e, Continue)
  }

  function SearchKey(e: State, key: Key): (State, Outcome)
    requires InText(e.lines, e.cursor)
  {
    match key
    case Escape => (e.(mode := Normal, query := ""), Changed)
    case Enter => (Searched(e).(mode := Normal, query := ""), SearchOutcome(e))
    case Backspace => (e.(query := Popped(e.query)), Changed)
    case Char(ch) => (e.(query := e.query + [ch]), Changed)
    case Space => (e.(query := e.query + [' ']), Changed)
    case _ => (e, Continue)
  }

  function Pressed(e: State, key: Key): (State, Outcome)
    requires InText(e.lines, e.cursor)
  {
    match e.mode
    case Normal => NormalKey(e, key)
    case Insert => InsertKey(e, key)
    case Command => CommandKey(e, key)
    case Searching => SearchKey(e, key)
  }

  function Loaded(e: State, text: string): State {
    e.(lines := FromString(text), cursor := Position(0, 0), dirty := false, undo := [], redo := [])
  }
}
