/** Where the movement keys lead, told by rows, columns and offsets in the text. */
module EditorMoves {
  import opened Common
  import opened TextBuffer
  import opened Editor
  import opened EditorRuns

  /** A new cursor and nothing else. */
  ghost predicate OnlyMoves(e: State, e': State) {
    e' == e.(cursor := e'.cursor)
  }

  // --------------------------------------------------------- up and down

  /** J and Down lead to the next row, as far right as it reaches, exactly when there is one. */
  lemma DownLeadsDown(e: State, key: Key)
    requires e.mode == Normal && InText(e.lines, e.cursor) && (key == J || key == Down)
    ensures var e' := Pressed(e, key).0;
            && OnlyMoves(e, e')
            && (e.cursor.row + 1 < |e.lines| ==>
                  e'.cursor == Position(e.cursor.row + 1, Min(e.cursor.col, |e.lines[e.cursor.row + 1]|)))
            && (e.cursor.row + 1 == |e.lines| ==> e' == e)
  {
  }

  /** K and Up lead to the row above in the same way. */
  lemma UpLeadsUp(e: State, key: Key)
    requires e.mode == Normal && InText(e.lines, e.cursor) && (key == K || key == Up)
    ensures var e' := Pressed(e, key).0;
            && OnlyMoves(e, e')
            && (e.cursor.row > 0 ==>
                  e'.cursor == Position(e.cursor.row - 1, Min(e.cursor.col, |e.lines[e.cursor.row - 1]|)))
            && (e.cursor.row == 0 ==> e' == e)
  {
  }

  /** The smallest of a column and the lengths of the rows from `lo` up to `hi`. */
  function Narrowest(lines: Lines, lo: nat, hi: nat, col: nat): nat
    requires hi <= |lines|
    decreases hi - lo
  {
    if lo >= hi then col else Narrowest(lines, lo + 1, hi, Min(col, |lines[lo]|))
  }

  /** A key pressed over and over. */
  ghost function Repeated(e: State, key: Key, k: nat): State
    requires Sound(e)
    decreases k
  {
    if k == 0 then e
    else
      PressKeepsSound(e, key);
      Repeated(Pressed(e, key).0, key, k - 1)
  }

  /**
    Pressed k times with k rows below, J or Down ends k rows further on, in the column
    the narrowest row on the way allows; pressed more often it ends in the last row.
   */
  lemma {:induction false} DownsLeadDown(e: State, key: Key, k: nat)
    requires e.mode == Normal && Sound(e) && (key == J || key == Down)
    ensures var e' := Repeated(e, key, k); var row := Min(e.cursor.row + k, |e.lines| - 1);
            && OnlyMoves(e, e')
            && e'.cursor == Position(row, Narrowest(e.lines, e.cursor.row + 1, row + 1, e.cursor.col))
    decreases k
  {
    if k > 0 {
      PressKeepsSound(e, key);
      DownLeadsDown(e, key);
      DownsLeadDown(Pressed(e, key).0, key, k - 1);
    }
  }

  /** The smallest of a column and the lengths of the rows below `hi` down to `lo`, met going up. */
  function NarrowestUp(lines: Lines, lo: nat, hi: nat, col: nat): nat
    requires hi <= |lines|
    decreases hi - lo
  {
    if lo >= hi then col else NarrowestUp(lines, lo, hi - 1, Min(col, |lines[hi - 1]|))
  }

  lemma {:induction false} UpsLeadUp(e: State, key: Key, k: nat)
    requires e.mode == Normal && Sound(e) && (key == K || key == Up)
    ensures var e' := Repeated(e, key, k); var row := Max(e.cursor.row - k, 0);
            && OnlyMoves(e, e')
            && e'.cursor == Position(row, NarrowestUp(e.lines, row, e.cursor.row, e.cursor.col))
    decreases k
  {
    if k > 0 {
      PressKeepsSound(e, key);
      UpLeadsUp(e, key);
      UpsLeadUp(Pressed(e, key).0, key, k - 1);
    }
  }

  // ------------------------------------------------------- left and right

  /** H and Left step back one character of the text, and stop at the start of the line. */
  lemma LeftStepsBack(e: State, key: Key)
    requires e.mode == Normal && InText(e.lines, e.cursor) && (key == H || key == Left)
    ensures var e' := Pressed(e, key).0;
            && OnlyMoves(e, e') && InText(e.lines, e'.cursor) && e'.cursor.row == e.cursor.row
            && Offset(e.lines, e'.cursor) == Offset(e.lines, e.cursor) - if e.cursor.col > 0 then 1 else 0
  {
  }

  /** L and Right step on one character, and stop past the last one of the line. */
  lemma RightStepsOn(e: State, key: Key)
    requires e.mode == Normal && InText(e.lines, e.cursor) && (key == L || key == Right)
    ensures var e' := Pressed(e, key).0;
            && OnlyMoves(e, e') && InText(e.lines, e'.cursor) && e'.cursor.row == e.cursor.row
            && Offset(e.lines, e'.cursor) ==
               Offset(e.lines, e.cursor) + if e.cursor.col < |e.lines[e.cursor.row]| then 1 else 0
  {
  }

  /** I starts inserting here, A one character on where the line has one. */
  lemma InsertStartsHere(e: State)
    requires e.mode == Normal && InText(e.lines, e.cursor)
    ensures Pressed(e, I).0 == e.(mode := Insert)
    ensures var e' := Pressed(e, A).0;
            && OnlyMoves(e.(mode := Insert), e') && InText(e.lines, e'.cursor) && e'.cursor.row == e.cursor.row
            && Offset(e.lines, e'.cursor) ==
               Offset(e.lines, e.cursor) + if e.cursor.col < |e.lines[e.cursor.row]| then 1 else 0
  {
  }

  /** Escape ends inserting one character back, or where it is at the start of a line. */
  lemma EscapeStepsBack(e: State)
    requires e.mode == Insert && InText(e.lines, e.cursor)
    ensures var e' := Pressed(e, Escape).0;
            && OnlyMoves(e.(mode := Normal), e') && InText(e.lines, e'.cursor) && e'.cursor.row == e.cursor.row
            && Offset(e.lines, e'.cursor) == Offset(e.lines, e.cursor) - if e.cursor.col > 0 then 1 else 0
  {
  }

  /** From any mode Escape leads to normal mode with empty prompts where it was in one, and touches no text. */
  lemma EscapeLeadsHome(e: State)
    requires InText(e.lines, e.cursor)
    ensures var e' := Pressed(e, Escape).0;
            && e'.mode == Normal && e'.lines == e.lines && e'.undo == e.undo && e'.redo == e.redo && e'.dirty == e.dirty
            && (e.mode == Command ==> e'.command == "") && (e.mode == Searching ==> e'.query == "")
            && (e.mode != Insert ==> e'.cursor == e.cursor)
  {
  }

  // ---------------------------------------------------------- what shows

  /** The part of the state a screen depends on. */
  ghost predicate LooksAlike(e: State, e': State) {
    && e'.mode == e.mode && e'.lines == e.lines && e'.cursor == e.cursor && e'.dirty == e.dirty
    && e'.command == e.command && e'.query == e.query
  }

  /** A key answered with Continue changed nothing that shows, so the host need not redraw. */
  lemma ContinueShowsNothingNew(e: State, key: Key)
    requires InText(e.lines, e.cursor) && Pressed(e, key).1 == Continue
    ensures LooksAlike(e, Pressed(e, key).0)
  {
  }

  /** A key answered with a message changed the text only if it undid or redid, and moved no cursor otherwise. */
  lemma MessagesExplain(e: State, key: Key)
    requires InText(e.lines, e.cursor) && Pressed(e, key).1.StatusMessage? && !IsTimeTravel(e.mode, key)
    ensures Pressed(e, key).0.lines == e.lines && Pressed(e, key).0.cursor == e.cursor
  {
  }
}
