/** Searching from the keyboard: a new query finds from the cursor on, N always moves on. */
module EditorFinding {
  import opened Common
  import opened TextBuffer
  import opened Editor
  import opened EditorRuns
  import opened EditorTyping
  import Search

  /** Outside search mode no query stands, so a search there repeats the last one. */
  ghost predicate Tidy(e: State) {
    e.mode != Searching ==> e.query == ""
  }

  lemma KeyKeepsTidy(e: State, key: Key)
    requires InText(e.lines, e.cursor) && Tidy(e)
    ensures Tidy(Pressed(e, key).0)
  {
  }

  lemma {:induction false} RunKeepsTidy(s: Session, events: seq<Event>)
    requires Reachable(s) && Tidy(s.e)
    ensures IsRun(s, events) && Tidy(Run(s, events).e)
    decreases |events|
  {
    if events != [] {
      StepKeepsReachable(s, events[0]);
      if events[0].Press? {
        KeyKeepsTidy(s.e, events[0].key);
      }
      RunKeepsTidy(Step(s, events[0]), events[1..]);
    }
  }

  /** The key searched for `q`: it left the cursor on the answer, or where it was, and said which. */
  ghost predicate SearchedFor(e: State, e': State, outcome: Outcome, q: string, repeat: bool)
    requires InText(e.lines, e.cursor)
  {
    && e'.lines == e.lines && e'.undo == e.undo && e'.redo == e.redo && e'.dirty == e.dirty
    && exists answer ::
      && Search.Answers(e.lines, e.cursor, q, repeat, answer)
      && e'.cursor == (if answer.Some? then answer.value else e.cursor)
      && outcome == (if answer.Some? then Changed else StatusMessage("Pattern not found"))
  }

  lemma EnterSearches(e: State, q: string)
    requires InText(e.lines, e.cursor) && q != ""
    ensures var (e', outcome) := Pressed(e.(mode := Searching, query := q), Enter);
            && SearchedFor(e, e', outcome, q, false)
            && e'.mode == Normal && e'.query == "" && e'.lastSearch == Some(q)
  {
    Search.FindNextAnswers(e.lines, e.cursor, q, false);
  }

  /** A slash, a text and Enter search for what the prompt took of the text, and remember it. */
  lemma QueryTyped(e: State, text: string)
    requires e.mode == Normal && Sound(e) && forall i :: 0 <= i < |text| ==> Printable(text[i])
    requires AtPrompt(text) != ""
    ensures var e1 := Typing(e, "/" + text);
            && e1 == e.(mode := Searching, query := AtPrompt(text))
            && var (e', outcome) := Pressed(e1, Enter);
               && SearchedFor(e, e', outcome, AtPrompt(text), false)
               && e'.mode == Normal && e'.query == "" && e'.lastSearch == Some(AtPrompt(text))
  {
    SlashTyped(e, text);
    EnterSearches(e, AtPrompt(text));
  }

  lemma SlashOpens(e: State)
    requires e.mode == Normal && InText(e.lines, e.cursor)
    ensures KeyOf('/') == Some(Slash) && Pressed(e, Slash).0 == e.(mode := Searching, query := "")
  {
  }

  lemma SlashTyped(e: State, text: string)
    requires e.mode == Normal && Sound(e) && forall i :: 0 <= i < |text| ==> Printable(text[i])
    ensures Typing(e, "/" + text) == e.(mode := Searching, query := AtPrompt(text))
  {
    var e0 := e.(mode := Searching, query := "");
    SlashOpens(e);
    TypingCons(e, '/', text);
    TextPrompted(e0, text);
    assert "" + AtPrompt(text) == AtPrompt(text);
  }

  /** An occurrence N can reach: anywhere but under the cursor, overlapping it from the left included. */
  ghost predicate Reached(e: State, q: string, p: Position) {
    && Search.Occurs(e.lines, q, p)
    && (Search.Precedes(e.cursor, p) || p.row < e.cursor.row || (p.row == e.cursor.row && p.col + |q| <= e.cursor.col))
  }

  ghost predicate ReachesSome(e: State, q: string) {
    exists p :: Reached(e, q, p)
  }

  /**
    In every reachable state N repeats the last search, never answers with the cursor's
    own place, and moves on exactly when there is an occurrence after the cursor, in a
    row above, or wholly before it in its row.
   */
  lemma NMovesOn(events: seq<Event>)
    ensures IsRun(OPENED, events)
    ensures var e := Run(OPENED, events).e;
            e.mode == Normal && e.lastSearch.Some? && e.lastSearch.value != "" ==>
              InText(e.lines, e.cursor) && MovesOn(e, e.lastSearch.value, Pressed(e, N).0, Pressed(e, N).1)
  {
    RunKeepsReachable(OPENED, events);
    RunKeepsTidy(OPENED, events);
    var e := Run(OPENED, events).e;
    if e.mode == Normal && e.lastSearch.Some? && e.lastSearch.value != "" {
      NRepeats(e, e.lastSearch.value);
    }
  }

  /** The key searched again for `q` and left the cursor's own place exactly when it could. */
  ghost predicate MovesOn(e: State, q: string, e': State, outcome: Outcome)
    requires InText(e.lines, e.cursor)
  {
    && SearchedFor(e, e', outcome, q, true)
    && (outcome == Changed <==> ReachesSome(e, q))
    && (outcome == Changed ==> e'.cursor != e.cursor && Reached(e, q, e'.cursor))
    && (outcome != Changed ==> e'.cursor == e.cursor)
  }

  lemma NRepeats(e: State, q: string)
    requires InText(e.lines, e.cursor) && e.mode == Normal && e.query == "" && e.lastSearch == Some(q) && q != ""
    ensures MovesOn(e, q, Pressed(e, N).0, Pressed(e, N).1)
  {
    RepeatReaches(e, q);
  }

  lemma RepeatReaches(e: State, q: string)
    requires InText(e.lines, e.cursor) && q != ""
    ensures var answer := Search.FindNext(e.lines, e.cursor, q, true);
            && Search.Answers(e.lines, e.cursor, q, true, answer)
            && (answer.Some? <==> ReachesSome(e, q))
            && (answer.Some? ==> answer.value != e.cursor && Reached(e, q, answer.value))
  {
    Search.FindNextAnswers(e.lines, e.cursor, q, true);
    var answer := Search.FindNext(e.lines, e.cursor, q, true);
    if answer.Some? {
      assert Reached(e, q, answer.value);
    } else {
      assert forall p :: !Reached(e, q, p);
    }
  }

  /** Standing on the first of two equal words, N goes to the second. */
  lemma NextWordFound()
    ensures Search.FindNext(["foo foo"], Position(0, 0), "foo", true) == Some(Position(0, 4))
  {
    var line := "foo foo";
    assert line[4..7] == "foo" && Search.At(line, "foo", 4);
    forall c | 1 <= c < 4 ensures !Search.At(line, "foo", c) {
      StartsAlike(line, "foo", c);
      assert line[1] == 'o' && line[2] == 'o' && line[3] == ' ';
    }
    assert Search.FirstIn(line, "foo", 1) == Some(4);
  }

  lemma StartsAlike(line: string, q: string, c: nat)
    requires q != ""
    ensures Search.At(line, q, c) ==> line[c] == q[0]
  {
    if Search.At(line, q, c) {
      assert line[c..c + |q|][0] == line[c];
    }
  }
}
