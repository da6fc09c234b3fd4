/** What holds in every state the editor can reach, and what undo and redo do to its history. */
module EditorRuns {
  import opened Common
  import opened TextBuffer
  import opened Editor

  // ------------------------------------------------- states and their history

  ghost predicate Fits(s: Snapshot) {
    InText(s.lines, s.cursor)
  }

  /** The present and every remembered state have their cursor inside their text. */
  ghost predicate CursorsFit(e: State) {
    && Fits(Now(e))
    && (forall i :: 0 <= i < |e.undo| ==> Fits(e.undo[i]))
    && (forall i :: 0 <= i < |e.redo| ==> Fits(e.redo[i]))
  }

  ghost predicate Shallow(e: State) {
    |e.undo| + |e.redo| <= MAX_UNDO_STACK
  }

  ghost predicate Sound(e: State) {
    CursorsFit(e) && Shallow(e)
  }

  // -------------------------------------------------------------- every key

  lemma EditKeepsSound(e: State, result: Option<(Lines, Position)>)
    requires Sound(e)
    requires result.Some? ==> InText(result.value.0, result.value.1)
    ensures Sound(Edited(e, result).0)
  {
  }

  lemma TypingFits(e: State, ch: char)
    requires InText(e.lines, e.cursor)
    ensures Typed(e, ch).Some? && InText(Typed(e, ch).value.0, Typed(e, ch).value.1)
    ensures Broken(e).Some? && InText(Broken(e).value.0, Broken(e).value.1)
  {
  }

  lemma CuttingFits(e: State)
    requires InText(e.lines, e.cursor)
    ensures Cut(e).Some? ==> InText(Cut(e).value.0, Cut(e).value.1)
    ensures LineCut(e).Some? && InText(LineCut(e).value.0, LineCut(e).value.1)
  {
  }

  lemma BackspaceFits(e: State)
    requires InText(e.lines, e.cursor)
    ensures BackSpaced(e.lines, e.cursor).Some? ==>
              InText(BackSpaced(e.lines, e.cursor).value.0, BackSpaced(e.lines, e.cursor).value.1)
  {
  }

  lemma MovesFit(e: State)
    requires InText(e.lines, e.cursor)
    ensures InText(e.lines, MovedUp(e)) && InText(e.lines, MovedDown(e))
    ensures InText(e.lines, MovedLeft(e.cursor)) && InText(e.lines, MovedRight(e))
    ensures InText(e.lines, Clamped(e.lines, MovedLeft(e.cursor)))
  {
  }

  lemma HitFits(e: State)
    requires InText(e.lines, e.cursor) && Hit(e).Some?
    ensures InText(e.lines, Hit(e).value)
  {
  }

  lemma HistoryKeepsSound(e: State)
    requires Sound(e)
    ensures Sound(Undone(e)) && Sound(Redone(e))
  {
  }

  /** A change of cursor, mode or prompt that leaves text and history alone. */
  lemma QuietKeepsSound(e: State, e': State)
    requires Sound(e) && e'.lines == e.lines && e'.undo == e.undo && e'.redo == e.redo && InText(e.lines, e'.cursor)
    ensures Sound(e')
  {
  }

  /** The normal-mode keys that leave the text and the stacks alone. */
  predicate IsQuietNormal(key: Key) {
    key != X && key != D && key != U && key != CtrlR
  }

  lemma QuietNormalKeepsText(e: State, key: Key)
    requires InText(e.lines, e.cursor) && IsQuietNormal(key)
    ensures var e' := NormalKey(e, key).0; e'.lines == e.lines && e'.undo == e.undo && e'.redo == e.redo
  {
  }

  lemma QuietNormalFits(e: State, key: Key)
    requires InText(e.lines, e.cursor) && IsQuietNormal(key)
    ensures InText(e.lines, NormalKey(e, key).0.cursor)
  {
    MovesFit(e);
    if key == N && Hit(e).Some? {
      HitFits(e);
    }
  }

  lemma QuietNormalKeepsSound(e: State, key: Key)
    requires Sound(e) && IsQuietNormal(key)
    ensures Sound(NormalKey(e, key).0)
  {
    QuietNormalKeepsText(e, key);
    QuietNormalFits(e, key);
    QuietKeepsSound(e, NormalKey(e, key).0);
  }

  lemma CutKeepsSound(e: State)
    requires Sound(e)
    ensures Sound(NormalKey(e, X).0) && Sound(NormalKey(e, D).0)
  {
    CuttingFits(e);
    EditKeepsSound(e, Cut(e));
    EditKeepsSound(e, LineCut(e));
  }

  lemma HistoryKeysKeepSound(e: State)
    requires Sound(e)
    ensures Sound(NormalKey(e, U).0) && Sound(NormalKey(e, CtrlR).0)
  {
    HistoryKeepsSound(e);
  }

  lemma NormalKeepsSound(e: State, key: Key)
    requires Sound(e)
    ensures Sound(NormalKey(e, key).0)
  {
    if IsQuietNormal(key) {
      QuietNormalKeepsSound(e, key);
    } else if key == X || key == D {
      CutKeepsSound(e);
    } else {
      HistoryKeysKeepSound(e);
    }
  }

  lemma EditingKeepsSound(e: State, key: Key)
    requires Sound(e) && (Types(key).Some? || key == Enter || key == Backspace)
    ensures Sound(InsertKey(e, key).0)
  {
    if Types(key).Some? {
      TypingFits(e, Types(key).value);
      EditKeepsSound(e, Typed(e, Types(key).value));
    } else if key == Enter {
      TypingFits(e, ' ');
      EditKeepsSound(e, Broken(e));
    } else {
      BackspaceFits(e);
      EditKeepsSound(e, BackSpaced(e.lines, e.cursor));
    }
  }

  lemma InsertKeepsSound(e: State, key: Key)
    requires Sound(e)
    ensures Sound(InsertKey(e, key).0)
  {
    if Types(key).Some? || key == Enter || key == Backspace {
      EditingKeepsSound(e, key);
    } else {
      MovesFit(e);
      QuietKeepsSound(e, InsertKey(e, key).0);
    }
  }

  lemma SearchKeepsSound(e: State, key: Key)
    requires Sound(e)
    ensures Sound(SearchKey(e, key).0)
  {
  }

  lemma PressKeepsSound(e: State, key: Key)
    requires Sound(e)
    ensures Sound(Pressed(e, key).0)
  {
    match e.mode
    case Normal => NormalKeepsSound(e, key);
    case Insert => InsertKeepsSound(e, key);
    case Command => QuietKeepsSound(e, CommandKey(e, key).0);
    case Searching => SearchKeepsSound(e, key);
  }

  // ------------------------------------------------------------- every run

  datatype Event = Press(key: Key) | Load(text: string) | MarkSaved

  /** The editor and the text its host last saw: loaded, or confirmed as saved. */
  datatype Session = Session(e: State, saved: Lines)

  function Step(s: Session, event: Event): Session
    requires InText(s.e.lines, s.e.cursor)
  {
    match event
    case Press(key) => s.(e := Pressed(s.e, key).0)
    case Load(text) => Session(Loaded(s.e, text), FromString(text))
    case MarkSaved => Session(s.e.(dirty := false), s.e.lines)
  }

  /** A clear dirty flag means the text is the one last loaded or saved. */
  ghost predicate NothingLost(s: Session) {
    !s.e.dirty ==> s.e.lines == s.saved
  }

  ghost predicate Reachable(s: Session) {
    Sound(s.e) && NothingLost(s)
  }

  lemma LoadKeepsSound(e: State, text: string)
    ensures Sound(Loaded(e, text))
  {
  }

  /** A key that leaves the dirty flag clear has left the text alone. */
  lemma CleanKeyKeepsText(e: State, key: Key)
    requires InText(e.lines, e.cursor) && !Pressed(e, key).0.dirty
    ensures !e.dirty && Pressed(e, key).0.lines == e.lines
  {
  }

  lemma StepKeepsReachable(s: Session, event: Event)
    requires Reachable(s)
    ensures Reachable(Step(s, event))
  {
    match event
    case Press(key) =>
      PressKeepsSound(s.e, key);
      if !Pressed(s.e, key).0.dirty {
        CleanKeyKeepsText(s.e, key);
      }
    case Load(text) => LoadKeepsSound(s.e, text);
    case MarkSaved => QuietKeepsSound(s.e, s.e.(dirty := false));
  }

  function Run(s: Session, events: seq<Event>): Session
    requires IsRun(s, events)
    decreases |events|
  {
    if events == [] then s else Run(Step(s, events[0]), events[1..])
  }

  /** No step of the run is asked of a state whose cursor is outside its text. */
  predicate IsRun(s: Session, events: seq<Event>)
    decreases |events|
  {
    events == [] || (InText(s.e.lines, s.e.cursor) && IsRun(Step(s, events[0]), events[1..]))
  }

  lemma {:induction false} RunKeepsReachable(s: Session, events: seq<Event>)
    requires Reachable(s)
    ensures IsRun(s, events) && Reachable(Run(s, events))
    decreases |events|
  {
    if events != [] {
      StepKeepsReachable(s, events[0]);
      RunKeepsReachable(Step(s, events[0]), events[1..]);
    }
  }

  const OPENED := Session(EMPTY, [""])

  /**
    In every state reachable by any keys, loads and saves, the text and every
    snapshot have a line under their cursor and a column inside it, so no edit can
    index out of range; and the two stacks together never exceed the limit.
   */
  lemma EveryStateIsSound(events: seq<Event>)
    ensures IsRun(OPENED, events)
    ensures Sound(Run(OPENED, events).e)
  {
    RunKeepsReachable(OPENED, events);
  }

  /**
    No silent loss: in every reachable state an unforced request to exit is only
    issued when the text is the one last loaded or saved.
   */
  lemma UnforcedExitLosesNothing(events: seq<Event>, key: Key)
    ensures IsRun(OPENED, events)
    ensures var s := Run(OPENED, events);
            InText(s.e.lines, s.e.cursor) && (Pressed(s.e, key).1 == RequestExit(false) ==> s.e.lines == s.saved)
  {
    RunKeepsReachable(OPENED, events);
    if Pressed(Run(OPENED, events).e, key).1 == RequestExit(false) {
      ExitNeedsClean(Run(OPENED, events).e, key);
    }
  }

  lemma ExitNeedsClean(e: State, key: Key)
    requires InText(e.lines, e.cursor) && Pressed(e, key).1 == RequestExit(false)
    ensures !e.dirty
  {
  }

  // --------------------------------------------------------------- timeline

  function Reversed(s: seq<Snapshot>): (r: seq<Snapshot>)
    ensures |r| == |s|
  {
    if s == [] then [] else [s[|s| - 1]] + Reversed(s[..|s| - 1])
  }

  /** Past, present and future as one sequence. */
  function Timeline(e: State): seq<Snapshot> {
    e.undo + [Now(e)] + Reversed(e.redo)
  }

  function Texts(history: seq<Snapshot>): seq<Lines> {
    seq(|history|, i requires 0 <= i < |history| => history[i].lines)
  }

  lemma UndoKeepsTimeline(e: State)
    ensures Timeline(Undone(e)) == Timeline(e)
  {
  }

  lemma RedoKeepsTimeline(e: State)
    ensures Timeline(Redone(e)) == Timeline(e)
  {
  }

  /** The keys that edit the text in a given mode. */
  predicate IsEdit(mode: Mode, key: Key) {
    || (mode == Normal && (key == X || key == D))
    || (mode == Insert && (Types(key).Some? || key == Enter || key == Backspace))
  }

  predicate IsTimeTravel(mode: Mode, key: Key) {
    mode == Normal && (key == U || key == CtrlR)
  }

  lemma QuietKeysKeepStacks(e: State, key: Key)
    requires InText(e.lines, e.cursor) && !IsEdit(e.mode, key) && !IsTimeTravel(e.mode, key)
    ensures var e' := Pressed(e, key).0; e'.lines == e.lines && e'.undo == e.undo && e'.redo == e.redo
  {
  }

  lemma SameTexts(e: State, e': State)
    requires e'.lines == e.lines && e'.undo == e.undo && e'.redo == e.redo
    ensures Texts(Timeline(e')) == Texts(Timeline(e))
  {
  }

  lemma TimeTravelKeepsTimeline(e: State, key: Key)
    requires InText(e.lines, e.cursor) && IsTimeTravel(e.mode, key)
    ensures Texts(Timeline(Pressed(e, key).0)) == Texts(Timeline(e))
  {
    UndoKeepsTimeline(e);
    RedoKeepsTimeline(e);
  }

  /** Undo, redo, movement, search and the prompts never change the timeline of texts. */
  lemma QuietKeysKeepTimeline(e: State, key: Key)
    requires InText(e.lines, e.cursor) && !IsEdit(e.mode, key)
    ensures Texts(Timeline(Pressed(e, key).0)) == Texts(Timeline(e))
  {
    if IsTimeTravel(e.mode, key) {
      TimeTravelKeepsTimeline(e, key);
    } else {
      QuietKeysKeepStacks(e, key);
      SameTexts(e, Pressed(e, key).0);
    }
  }

  /**
    An edit forgets the future and makes its result the new end of the timeline;
    of the past, at most the oldest state is forgotten.
   */
  lemma EditsExtendTimeline(e: State, key: Key)
    requires Sound(e) && IsEdit(e.mode, key)
    ensures var past := e.undo + [Now(e)]; var e' := Pressed(e, key).0;
            && e'.redo == []
            && Timeline(e') == (if |past| > MAX_UNDO_STACK then past[1..] else past) + [Now(e')]
  {
  }

  function Undos(e: State, k: nat): State
    decreases k
  {
    if k == 0 then e else Undos(Undone(e), k - 1)
  }

  function Redos(e: State, k: nat): State
    decreases k
  {
    if k == 0 then e else Redos(Redone(e), k - 1)
  }

  lemma {:induction false} UndosMoveBack(e: State, k: nat)
    ensures Timeline(Undos(e, k)) == Timeline(e)
    ensures |Undos(e, k).undo| == Max(|e.undo| - k, 0)
    decreases k
  {
    if k > 0 {
      UndoKeepsTimeline(e);
      UndosMoveBack(Undone(e), k - 1);
    }
  }

  lemma {:induction false} RedosMoveOn(e: State, k: nat)
    ensures Timeline(Redos(e, k)) == Timeline(e)
    ensures |Redos(e, k).undo| == Min(|e.undo| + k, |e.undo| + |e.redo|)
    decreases k
  {
    if k > 0 {
      RedoKeepsTimeline(e);
      RedosMoveOn(Redone(e), k - 1);
    }
  }

  lemma {:induction false} ReversedInjective(a: seq<Snapshot>, b: seq<Snapshot>)
    requires Reversed(a) == Reversed(b)
    ensures a == b
    decreases |a|
  {
    if a != [] {
      assert |a| == |Reversed(a)| == |Reversed(b)| == |b|;
      assert Reversed(a)[0] == Reversed(b)[0] && Reversed(a)[1..] == Reversed(b)[1..];
      ReversedInjective(a[..|a| - 1], b[..|b| - 1]);
    }
  }

  /** The timeline and a place in it determine past, present and future. */
  lemma PlaceDeterminesHistory(a: State, b: State)
    requires Timeline(a) == Timeline(b) && |a.undo| == |b.undo|
    ensures a.undo == b.undo && Now(a) == Now(b) && a.redo == b.redo
  {
    var t, n := Timeline(a), |a.undo|;
    assert a.undo == t[..n] && b.undo == t[..n];
    assert Now(a) == t[n] && Now(b) == t[n];
    assert Reversed(a.redo) == t[n + 1..] && Reversed(b.redo) == t[n + 1..];
    ReversedInjective(a.redo, b.redo);
  }

  /**
    k undos followed by k redos restore text, cursor and both stacks exactly when
    there were at least k states to undo, or none to redo.
   */
  lemma UndoRedoRoundTrip(e: State, k: nat)
    ensures var e' := Redos(Undos(e, k), k);
            (e'.undo == e.undo && Now(e') == Now(e) && e'.redo == e.redo) <==> (k <= |e.undo| || e.redo == [])
  {
    var back := Undos(e, k);
    var e' := Redos(back, k);
    UndosMoveBack(e, k);
    RedosMoveOn(back, k);
    assert |Timeline(back)| == |back.undo| + 1 + |back.redo|;
    assert |Timeline(e)| == |e.undo| + 1 + |e.redo|;
    if k <= |e.undo| || e.redo == [] {
      PlaceDeterminesHistory(e', e);
    }
  }

  /** With nothing to undo and something undone, undo then redo moves on to the undone text. */
  lemma UndoAtTheStartIsNotUndone()
    ensures var e := EMPTY.(redo := [Snapshot(["a"], Position(0, 0))]);
            e.lines == [""] && Redos(Undos(e, 1), 1).lines == ["a"]
  {
    var e := EMPTY.(redo := [Snapshot(["a"], Position(0, 0))]);
    assert Undos(e, 1) == Undone(e) == e;
    assert Redos(e, 1) == Redone(e);
  }
}
