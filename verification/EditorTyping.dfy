/**
  What arrives when bytes are typed: text in insert mode, commands and queries at
  the prompts.  Keys that double as commands do not type everywhere.
 */
module EditorTyping {
  import opened Common
  import opened TextBuffer
  import opened Editor
  import opened EditorRuns

  /** The key for a character of the keyboard. */
  function KeyOf(c: char): Option<Key> {
    if c == '\U{1B}' then Some(Escape)
    else if c == '\U{08}' || c == '\U{7F}' then Some(Backspace)
    else if c == '\r' || c == '\n' then Some(Enter)
    else if c == '\t' then Some(Tab)
    else if c == ' ' then Some(Space)
    else if c == ':' then Some(Colon)
    else if c == '/' then Some(Slash)
    else if c == 'h' then Some(H)
    else if c == 'j' then Some(J)
    else if c == 'k' then Some(K)
    else if c == 'l' then Some(L)
    else if c == 'i' then Some(I)
    else if c == 'a' then Some(A)
    else if c == 'x' then Some(X)
    else if c == 'd' then Some(D)
    else if c == 'u' then Some(U)
    else if c == 'n' then Some(N)
    else if ' ' <= c <= '~' then Some(Char(c))
    else None
  }

  predicate Printable(c: char) {
    ' ' <= c <= '~'
  }

  /** Bytes typed one after another; what is no key is skipped. */
  ghost function Typing(e: State, text: string): State
    requires Sound(e)
    decreases |text|
  {
    if text == "" then e
    else if KeyOf(text[0]).None? then Typing(e, text[1..])
    else
      PressKeepsSound(e, KeyOf(text[0]).value);
      Typing(Pressed(e, KeyOf(text[0]).value).0, text[1..])
  }

  lemma {:induction false} TypingKeepsSound(e: State, text: string)
    requires Sound(e)
    ensures Sound(Typing(e, text))
    decreases |text|
  {
    if text != "" {
      if KeyOf(text[0]).None? {
        TypingKeepsSound(e, text[1..]);
      } else {
        PressKeepsSound(e, KeyOf(text[0]).value);
        TypingKeepsSound(Pressed(e, KeyOf(text[0]).value).0, text[1..]);
      }
    }
  }

  lemma TypingCons(e: State, c: char, text: string)
    requires Sound(e) && KeyOf(c).Some? && Sound(Pressed(e, KeyOf(c).value).0)
    ensures Typing(e, [c] + text) == Typing(Pressed(e, KeyOf(c).value).0, text)
  {
    assert ([c] + text)[1..] == text;
  }

  // -------------------------------------------------------- text in insert mode

  /** The text without the two characters that are keys of their own. */
  function Received(text: string): string {
    if text == "" then ""
    else (if text[0] == ':' || text[0] == '/' then "" else [text[0]]) + Received(text[1..])
  }

  /** The text stands in the flat text at the offset, and the cursor behind it. */
  ghost predicate Inserted(e: State, e': State, text: string)
    requires InText(e.lines, e.cursor)
  {
    var flat, o := Flat(e.lines), Offset(e.lines, e.cursor);
    && o <= |flat| && InText(e'.lines, e'.cursor) && e'.mode == Insert
    && Flat(e'.lines) == flat[..o] + text + flat[o..]
    && Offset(e'.lines, e'.cursor) == o + |text|
  }

  /** Every printable character has a key, and in insert mode it types just that character, save two that type none. */
  lemma KeysTypeThemselves(c: char)
    requires Printable(c)
    ensures KeyOf(c).Some?
    ensures c != ':' && c != '/' ==> Types(KeyOf(c).value) == Some(c)
    ensures c == ':' ==> KeyOf(c).value == Colon
    ensures c == '/' ==> KeyOf(c).value == Slash
  {
  }

  /** A key that types a character inserts it into the flat text. */
  lemma TypingKeyInserts(e: State, key: Key)
    requires e.mode == Insert && InText(e.lines, e.cursor) && Types(key).Some?
    ensures Inserted(e, Pressed(e, key).0, [Types(key).value])
    ensures Pressed(e, key).0.dirty && Pressed(e, key).1 == Changed
  {
    InsertIsFlat(e.lines, e.cursor, Types(key).value);
  }

  lemma EnterInserts(e: State)
    requires e.mode == Insert && InText(e.lines, e.cursor)
    ensures Inserted(e, Pressed(e, Enter).0, "\n")
    ensures Pressed(e, Enter).0.dirty && Pressed(e, Enter).1 == Changed
  {
    SplitIsFlat(e.lines, e.cursor);
  }

  lemma NothingInserts(e: State)
    requires e.mode == Insert && InText(e.lines, e.cursor)
    ensures Inserted(e, e, "")
  {
    FlatCut(e.lines, e.cursor);
    var flat, o := Flat(e.lines), Offset(e.lines, e.cursor);
    assert flat[..o] + "" + flat[o..] == flat;
  }

  lemma ReceivedOne(c: char)
    ensures Received([c]) == if c == ':' || c == '/' then "" else [c]
  {
    assert [c][1..] == "";
  }

  /** One printable character or line end, typed in insert mode. */
  lemma CharacterTyped(e: State, c: char)
    requires e.mode == Insert && InText(e.lines, e.cursor) && (Printable(c) || c == '\n')
    ensures KeyOf(c).Some? && Inserted(e, Pressed(e, KeyOf(c).value).0, Received([c]))
    ensures c == ':' || c == '/' ==> Pressed(e, KeyOf(c).value) == (e, Continue)
    ensures c != ':' && c != '/' ==> Pressed(e, KeyOf(c).value).0.dirty && Pressed(e, KeyOf(c).value).1 == Changed
  {
    ReceivedOne(c);
    if c == '\n' {
      EnterInserts(e);
    } else {
      KeysTypeThemselves(c);
      if c == ':' || c == '/' {
        NothingInserts(e);
      } else {
        TypingKeyInserts(e, KeyOf(c).value);
      }
    }
  }

  lemma InsertedTwice(e: State, e': State, e'': State, a: string, b: string)
    requires InText(e.lines, e.cursor) && Inserted(e, e', a) && Inserted(e', e'', b)
    ensures Inserted(e, e'', a + b)
  {
    var flat, o := Flat(e.lines), Offset(e.lines, e.cursor);
    var flat', o' := Flat(e'.lines), Offset(e'.lines, e'.cursor);
    assert flat'[..o'] == flat[..o] + a && flat'[o'..] == flat[o..];
    assert flat[..o] + a + b + flat[o..] == flat[..o] + (a + b) + flat[o..];
  }

  /**
    Typing text in insert mode inserts it at the cursor, line ends included, without
    the characters ':' and '/', which insert mode does not take.
   */
  lemma {:induction false} TextTyped(e: State, text: string)
    requires e.mode == Insert && Sound(e) && forall i :: 0 <= i < |text| ==> Printable(text[i]) || text[i] == '\n'
    ensures Inserted(e, Typing(e, text), Received(text))
    decreases |text|
  {
    if text == "" {
      NothingInserts(e);
    } else {
      CharacterTyped(e, text[0]);
      var e' := Pressed(e, KeyOf(text[0]).value).0;
      PressKeepsSound(e, KeyOf(text[0]).value);
      TextTyped(e', text[1..]);
      ReceivedOne(text[0]);
      InsertedTwice(e, e', Typing(e', text[1..]), Received([text[0]]), Received(text[1..]));
    }
  }

  lemma {:induction false} ReceivedAllIff(text: string)
    ensures |Received(text)| <= |text|
    ensures Received(text) == text <==> ':' !in text && '/' !in text
    decreases |text|
  {
    if text != "" {
      ReceivedAllIff(text[1..]);
      assert text == [text[0]] + text[1..];
      if text[0] == ':' || text[0] == '/' {
        assert |Received(text)| < |text|;
      } else {
        assert Received(text)[1..] == Received(text[1..]);
      }
    }
  }

  /** What is typed is what is inserted exactly when it holds neither ':' nor '/'. */
  lemma TypedIsInsertedIff(e: State, text: string)
    requires e.mode == Insert && Sound(e) && forall i :: 0 <= i < |text| ==> Printable(text[i]) || text[i] == '\n'
    ensures Inserted(e, Typing(e, text), text) <==> ':' !in text && '/' !in text
  {
    TextTyped(e, text);
    ReceivedAllIff(text);
    if |Received(text)| == |text| {
      var flat, o := Flat(e.lines), Offset(e.lines, e.cursor);
      var a, b := flat[..o] + text + flat[o..], flat[..o] + Received(text) + flat[o..];
      assert a[o..o + |text|] == text && b[o..o + |text|] == Received(text);
    }
  }

  /** Typing "a/b" leaves "ab". */
  lemma SlashIsNotTyped()
    ensures Received("a/b") == "ab"
  {
    assert "a/b"[1..] == "/b" && "/b"[1..] == "b" && "b"[1..] == "";
    assert Received("b") == "b" && Received("/b") == "b";
  }

  // ------------------------------------------------------- taking text back

  /** Backspace takes back a character just typed, or a line end, and puts the cursor back. */
  lemma BackspaceTakesBack(e: State, key: Key)
    requires e.mode == Insert && InText(e.lines, e.cursor) && (Types(key).Some? || key == Enter)
    ensures var e' := Pressed(e, key).0;
            && e'.mode == Insert && InText(e'.lines, e'.cursor)
            && Pressed(e', Backspace).0.lines == e.lines && Pressed(e', Backspace).0.cursor == e.cursor
  {
    if Types(key).Some? {
      BackSpaceUndoesInsert(e.lines, e.cursor, Types(key).value);
    } else {
      BackSpaceUndoesSplit(e.lines, e.cursor);
    }
  }

  /** X removes the character under the cursor from the flat text and leaves the cursor; past the line it does nothing. */
  lemma CutRemovesHere(e: State)
    requires e.mode == Normal && InText(e.lines, e.cursor)
    ensures var (e', outcome) := Pressed(e, X); var flat, o := Flat(e.lines), Offset(e.lines, e.cursor);
            && e'.cursor == e.cursor
            && (outcome == Changed <==> e.cursor.col < |e.lines[e.cursor.row]|)
            && (outcome == Changed ==> o < |flat| && Flat(e'.lines) == flat[..o] + flat[o + 1..] && e'.dirty)
            && (outcome != Changed ==> outcome == Continue && e'.lines == e.lines)
  {
    if e.cursor.col < |e.lines[e.cursor.row]| {
      DeleteIsFlat(e.lines, e.cursor);
    }
  }

  /** D removes the cursor's line, and the cursor stays in its row and column as far as the text still has them. */
  lemma LineCutRemovesRow(e: State)
    requires e.mode == Normal && InText(e.lines, e.cursor)
    ensures var (e', outcome) := Pressed(e, D); var row := e.cursor.row;
            && outcome == Changed && e'.dirty
            && (|e.lines| > 1 ==> e'.lines == e.lines[..row] + e.lines[row + 1..])
            && (|e.lines| == 1 ==> e'.lines == [""])
            && e'.cursor.row == Min(row, |e'.lines| - 1)
            && e'.cursor.col == Min(e.cursor.col, |e'.lines[e'.cursor.row]|)
  {
  }

  /** Backspace in insert mode removes the character before the cursor, and does nothing at the very start. */
  lemma BackspaceRemovesBefore(e: State)
    requires e.mode == Insert && InText(e.lines, e.cursor)
    ensures var (e', outcome) := Pressed(e, Backspace); var flat, o := Flat(e.lines), Offset(e.lines, e.cursor);
            && InText(e'.lines, e'.cursor)
            && (outcome == Changed <==> o > 0)
            && (o > 0 ==>
                  && o <= |flat| && Flat(e'.lines) == flat[..o - 1] + flat[o..]
                  && Offset(e'.lines, e'.cursor) == o - 1 && e'.dirty)
            && (o == 0 ==> outcome == Continue && e'.lines == e.lines && e'.cursor == e.cursor)
  {
    BackSpaceIsFlat(e.lines, e.cursor);
  }

  /** After any edit, undo brings back the text and the cursor from before it, and redo the edit. */
  lemma UndoTakesBack(e: State, key: Key)
    requires Sound(e) && IsEdit(e.mode, key)
    ensures var e' := Pressed(e, key).0.(mode := Normal);
            && InText(e'.lines, e'.cursor)
            && var back := Pressed(e', U).0;
               && back.lines == e.lines && back.cursor == e.cursor && InText(back.lines, back.cursor)
               && Pressed(back, CtrlR).0.lines == e'.lines && Pressed(back, CtrlR).0.cursor == e'.cursor
  {
    PressKeepsSound(e, key);
    EditsExtendTimeline(e, key);
    EditRemembers(e, key);
  }

  lemma EditRemembers(e: State, key: Key)
    requires InText(e.lines, e.cursor) && IsEdit(e.mode, key)
    ensures var undo := Pressed(e, key).0.undo; undo != [] && undo[|undo| - 1] == Now(e)
  {
  }

  /** Undo and redo say whether there was anything to go back or on to. */
  lemma HistorySpeaks(e: State)
    requires e.mode == Normal && InText(e.lines, e.cursor)
    ensures e.undo != [] <==> Pressed(e, U).1 == StatusMessage("Undo")
    ensures e.undo == [] <==> Pressed(e, U) == (e, StatusMessage("Already at oldest change"))
    ensures e.redo != [] <==> Pressed(e, CtrlR).1 == StatusMessage("Redo")
    ensures e.redo == [] <==> Pressed(e, CtrlR) == (e, StatusMessage("Already at newest change"))
  {
  }

  /** A hundred states are remembered: an edit beyond that forgets the oldest, and only it. */
  lemma HundredRemembered(e: State, key: Key)
    requires Sound(e) && IsEdit(e.mode, key)
    ensures var undo := Pressed(e, key).0.undo;
            && (|e.undo| < 100 ==> undo == e.undo + [Now(e)])
            && (|e.undo| == 100 ==> undo == e.undo[1..] + [Now(e)])
  {
    EditUndo(e, key);
  }

  lemma EditUndo(e: State, key: Key)
    requires InText(e.lines, e.cursor) && IsEdit(e.mode, key)
    ensures Pressed(e, key).0.undo == Remembered(e).undo
  {
  }

  /** A loaded text is shown from its start, is clean, and has no history to undo into. */
  lemma LoadStartsAfresh(e: State, text: string)
    ensures var e' := Loaded(e, text);
            && e'.lines == FromString(text) && InText(e'.lines, e'.cursor) && Offset(e'.lines, e'.cursor) == 0
            && !e'.dirty && Undone(e') == e' && Redone(e') == e'
            && e'.mode == e.mode && e'.command == e.command && e'.query == e.query && e'.lastSearch == e.lastSearch
  {
    FromStringHasLine(text);
  }

  // ------------------------------------------------------------- the prompts

  /** The letters that are commands in normal mode. */
  predicate CommandLetter(c: char) {
    || c == 'h' || c == 'j' || c == 'k' || c == 'l' || c == 'i'
    || c == 'a' || c == 'x' || c == 'd' || c == 'u' || c == 'n'
  }

  /** What a prompt takes: neither ':' nor '/', nor a command letter. */
  predicate PromptTakes(c: char) {
    Printable(c) && c != ':' && c != '/' && !CommandLetter(c)
  }

  function AtPrompt(text: string): string {
    if text == "" then "" else (if PromptTakes(text[0]) then [text[0]] else "") + AtPrompt(text[1..])
  }

  /** A printable character reaches a prompt as itself, as a space, or as a key the prompt ignores. */
  lemma KeysAtPrompt(c: char)
    requires Printable(c)
    ensures KeyOf(c).Some?
    ensures PromptTakes(c) ==> KeyOf(c).value == if c == ' ' then Space else Char(c)
    ensures !PromptTakes(c) ==> KeyOf(c).value in {Colon, Slash, H, J, K, L, I, A, X, D, U, N}
  {
  }

  lemma PromptKeys(e: State, key: Key)
    requires InText(e.lines, e.cursor) && (e.mode == Command || e.mode == Searching)
    ensures key in {Colon, Slash, H, J, K, L, I, A, X, D, U, N} ==> Pressed(e, key) == (e, Continue)
    ensures key == Space || key.Char? ==>
              var got := [if key == Space then ' ' else key.ch];
              Pressed(e, key).0 ==
              if e.mode == Command then e.(command := e.command + got) else e.(query := e.query + got)
  {
  }

  /** The state with more text at its prompt. */
  function Prompted(e: State, text: string): State {
    if e.mode == Command then e.(command := e.command + text) else e.(query := e.query + text)
  }

  lemma PromptedTwice(e: State, a: string, b: string)
    ensures Prompted(Prompted(e, a), b) == Prompted(e, a + b)
    ensures Prompted(e, "") == e
  {
    assert e.command + a + b == e.command + (a + b) && e.query + a + b == e.query + (a + b);
    assert e.command + "" == e.command && e.query + "" == e.query;
  }

  lemma CharacterPrompted(e: State, c: char)
    requires InText(e.lines, e.cursor) && Printable(c) && (e.mode == Command || e.mode == Searching)
    ensures KeyOf(c).Some?
    ensures Pressed(e, KeyOf(c).value).0 == Prompted(e, if PromptTakes(c) then [c] else "")
  {
    KeysAtPrompt(c);
    PromptKeys(e, KeyOf(c).value);
    PromptedTwice(e, "", "");
  }

  /** Text typed at a prompt is appended to it, without the characters the prompt does not take. */
  lemma {:induction false} TextPrompted(e: State, text: string)
    requires Sound(e) && (e.mode == Command || e.mode == Searching)
    requires forall i :: 0 <= i < |text| ==> Printable(text[i])
    ensures Typing(e, text) == Prompted(e, AtPrompt(text))
    decreases |text|
  {
    if text == "" {
      PromptedTwice(e, "", "");
    } else {
      CharacterPrompted(e, text[0]);
      var got := if PromptTakes(text[0]) then [text[0]] else "";
      var e' := Pressed(e, KeyOf(text[0]).value).0;
      PressKeepsSound(e, KeyOf(text[0]).value);
      TextPrompted(e', text[1..]);
      PromptedTwice(e, got, AtPrompt(text[1..]));
    }
  }

  /** Backspace at a prompt takes back a character just typed there, and does nothing at an empty one. */
  lemma PromptTakesBack(e: State, c: char)
    requires InText(e.lines, e.cursor) && PromptTakes(c) && (e.mode == Command || e.mode == Searching)
    ensures var e' := Pressed(e, KeyOf(c).value).0;
            InText(e'.lines, e'.cursor) && Pressed(e', Backspace).0 == e
    ensures e.command == "" && e.query == "" ==> Pressed(e, Backspace).0 == e
  {
    CharacterPrompted(e, c);
    PoppedBack(e.command, c);
    PoppedBack(e.query, c);
    BackspaceAtPrompt(e);
    BackspaceAtPrompt(Prompted(e, [c]));
  }

  lemma PoppedBack(s: string, c: char)
    ensures Popped(s + [c]) == s
  {
  }

  lemma BackspaceAtPrompt(e: State)
    requires InText(e.lines, e.cursor) && (e.mode == Command || e.mode == Searching)
    ensures Pressed(e, Backspace).0 ==
            if e.mode == Command then e.(command := Popped(e.command)) else e.(query := Popped(e.query))
  {
  }

  lemma {:induction false} AtPromptAllIff(text: string)
    ensures |AtPrompt(text)| <= |text|
    ensures AtPrompt(text) == text <==> forall i :: 0 <= i < |text| ==> PromptTakes(text[i])
    decreases |text|
  {
    if text != "" {
      AtPromptAllIff(text[1..]);
      assert text == [text[0]] + text[1..];
      if PromptTakes(text[0]) {
        assert AtPrompt(text)[1..] == AtPrompt(text[1..]);
        assert forall i :: 0 < i < |text| ==> text[i] == text[1..][i - 1];
      } else {
        assert |AtPrompt(text)| < |text|;
      }
    }
  }

  lemma ColonOpens(e: State)
    requires e.mode == Normal && InText(e.lines, e.cursor)
    ensures KeyOf(':') == Some(Colon) && Pressed(e, Colon).0 == e.(mode := Command, command := "")
  {
  }

  lemma ColonTyped(e: State, text: string)
    requires e.mode == Normal && Sound(e) && forall i :: 0 <= i < |text| ==> Printable(text[i])
    ensures Typing(e, ":" + text) == e.(mode := Command, command := AtPrompt(text))
  {
    var e0 := e.(mode := Command, command := "");
    ColonOpens(e);
    TypingCons(e, ':', text);
    TextPrompted(e0, text);
    assert "" + AtPrompt(text) == AtPrompt(text);
  }

  /** A colon, a text and Enter: the command executed is what the prompt took of the text. */
  lemma CommandTyped(e: State, text: string)
    requires e.mode == Normal && Sound(e) && forall i :: 0 <= i < |text| ==> Printable(text[i])
    ensures var e1 := Typing(e, ":" + text);
            && e1 == e.(mode := Command, command := AtPrompt(text))
            && var (e', outcome) := Pressed(e1, Enter);
               && outcome == ExecuteCommand(e1)
               && e' == (if outcome.RequestExit? then e1 else e1.(mode := Normal))
  {
    ColonTyped(e, text);
  }
}
