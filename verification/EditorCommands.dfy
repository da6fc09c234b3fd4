/** What the command line requests, for every text at the prompt. */
module EditorCommands {
  import opened Common
  import opened TextBuffer
  import opened Editor
  import opened EditorRuns
  import opened EditorTyping

  ghost predicate Blank(s: string) {
    forall i :: 0 <= i < |s| ==> IsSpace(s[i])
  }

  /** No white space at either end. */
  predicate Tight(s: string) {
    s == "" || (!IsSpace(s[0]) && !IsSpace(s[|s| - 1]))
  }

  /** The text is `core` between white space. */
  ghost predicate Padded(text: string, core: string) {
    exists a, b :: Blank(a) && Blank(b) && text == a + core + b
  }

  lemma {:induction false} TrimStartSplits(s: string) returns (a: string)
    ensures Blank(a) && s == a + TrimStart(s)
    ensures TrimStart(s) == "" || !IsSpace(TrimStart(s)[0])
    decreases |s|
  {
    if s != "" && IsSpace(s[0]) {
      var rest := TrimStartSplits(s[1..]);
      a := [s[0]] + rest;
    } else {
      a := "";
    }
  }

  lemma {:induction false} TrimEndSplits(s: string) returns (b: string)
    ensures Blank(b) && s == TrimEnd(s) + b
    ensures TrimEnd(s) == "" || !IsSpace(TrimEnd(s)[|TrimEnd(s)| - 1])
    decreases |s|
  {
    if s != "" && IsSpace(s[|s| - 1]) {
      var rest := TrimEndSplits(s[..|s| - 1]);
      b := rest + [s[|s| - 1]];
    } else {
      b := "";
    }
  }

  lemma {:induction false} TrimStartSkips(a: string, s: string)
    requires Blank(a) && (s == "" || !IsSpace(s[0]))
    ensures TrimStart(a + s) == s
    decreases |a|
  {
    if a == "" {
      assert a + s == s;
    } else {
      TrimStartSkips(a[1..], s);
      assert (a + s)[1..] == a[1..] + s;
    }
  }

  lemma {:induction false} TrimEndSkips(s: string, b: string)
    requires Blank(b) && (s == "" || !IsSpace(s[|s| - 1]))
    ensures TrimEnd(s + b) == s
    decreases |b|
  {
    if b == "" {
      assert s + b == s;
    } else {
      TrimEndSkips(s, b[..|b| - 1]);
      assert (s + b)[..|s + b| - 1] == s + b[..|b| - 1];
    }
  }

  lemma TrimIsTight(s: string)
    ensures Tight(Trim(s)) && Padded(s, Trim(s))
  {
    var a := TrimStartSplits(s);
    var b := TrimEndSplits(TrimStart(s));
    assert s == a + Trim(s) + b;
    if Trim(s) != "" {
      assert TrimStart(s)[0] == Trim(s)[0];
    }
  }

  /** Trimming finds the one tight text between white space. */
  lemma TrimIff(text: string, core: string)
    requires Tight(core)
    ensures Trim(text) == core <==> Padded(text, core)
  {
    TrimIsTight(text);
    if Padded(text, core) {
      var a, b :| Blank(a) && Blank(b) && text == a + core + b;
      if core == "" {
        assert text == (a + b) + "";
        TrimStartSkips(a + b, "");
      } else {
        assert text == a + (core + b);
        TrimStartSkips(a, core + b);
        TrimEndSkips(core, b);
      }
    }
  }

  /** Quitting and writing, and exactly the texts that request them. */
  lemma CommandOutcomes(e: State)
    ensures ExecuteCommand(e) == RequestExit(true) <==> Padded(e.command, "q!")
    ensures ExecuteCommand(e) == RequestExit(false) <==> !e.dirty && (Padded(e.command, "q") || Padded(e.command, "wq"))
    ensures ExecuteCommand(e) == RequestIo(SaveAndQuit) <==> e.dirty && Padded(e.command, "wq")
    ensures ExecuteCommand(e) == RequestIo(Save) <==> Padded(e.command, "w")
    ensures e.dirty && Padded(e.command, "q") ==>
              ExecuteCommand(e) == StatusMessage("No write since last change (use :q! to override)")
  {
    TrimIff(e.command, "q!");
    TrimIff(e.command, "q");
    TrimIff(e.command, "wq");
    TrimIff(e.command, "w");
  }

  /** Any other text is answered as unknown, with what it was between white space. */
  lemma UnknownOutcome(e: State, text: string)
    requires Tight(text) && Padded(e.command, text)
    requires text != "q" && text != "q!" && text != "w" && text != "wq" && !("w " <= text)
    ensures ExecuteCommand(e) == StatusMessage("Unknown command: " + text)
  {
    TrimIff(e.command, text);
  }

  /** The text asks to write to a path: a w, a space, perhaps more white space, and the path. */
  ghost predicate AsksFor(text: string, path: string) {
    path != "" && Tight(path) && exists mid :: Blank(mid) && Padded(text, "w " + mid + path)
  }

  /** Before a text that ends in no white space, trimming drops white space in front only. */
  lemma TrimDropsFront(s: string) returns (a: string)
    requires s != "" && !IsSpace(s[|s| - 1])
    ensures Blank(a) && s == a + Trim(s) && Trim(s) != "" && Tight(Trim(s))
  {
    a := TrimStartSplits(s);
    TrimIsTight(s);
    assert TrimStart(s) != "" by {
      assert TrimStart(s) == "" ==> s == a;
    }
  }

  lemma WrittenPath(t: string) returns (mid: string)
    requires Tight(t) && "w " <= t
    ensures Blank(mid) && t == "w " + mid + Trim(t[2..]) && Trim(t[2..]) != "" && Tight(Trim(t[2..]))
  {
    var rest := t[2..];
    assert t == "w " + rest;
    assert rest != "" && t[|t| - 1] == rest[|rest| - 1];
    mid := TrimDropsFront(rest);
    assert "w " + (mid + Trim(rest)) == "w " + mid + Trim(rest);
  }

  lemma RequestedIsAskedFor(e: State, path: string)
    requires ExecuteCommand(e) == RequestIo(SaveAs(path))
    ensures AsksFor(e.command, path)
  {
    TrimIsTight(e.command);
    var mid := WrittenPath(Trim(e.command));
  }

  lemma TrimFront(mid: string, path: string)
    requires Blank(mid) && Tight(path)
    ensures Trim(mid + path) == path
  {
    assert Blank("") && mid + path == mid + path + "";
    TrimIff(mid + path, path);
  }

  lemma PathParsed(text: string, mid: string, path: string)
    requires path != "" && Tight(path) && Blank(mid) && Trim(text) == "w " + mid + path
    ensures ParseCommand(text) == WriteAs(path)
  {
    var t := Trim(text);
    assert t[2..] == mid + path && "w " <= t && |t| > 2;
    TrimFront(mid, path);
  }

  lemma AskedForIsRequested(e: State, path: string)
    requires AsksFor(e.command, path)
    ensures ExecuteCommand(e) == RequestIo(SaveAs(path))
  {
    var mid :| Blank(mid) && Padded(e.command, "w " + mid + path);
    var core := "w " + mid + path;
    assert core[0] == 'w' && core[|core| - 1] == path[|path| - 1];
    TrimIff(e.command, core);
    PathParsed(e.command, mid, path);
  }

  /** Writing elsewhere is requested exactly with the path asked for. */
  lemma WriteAsOutcome(e: State, path: string)
    ensures ExecuteCommand(e) == RequestIo(SaveAs(path)) <==> AsksFor(e.command, path)
  {
    if ExecuteCommand(e) == RequestIo(SaveAs(path)) {
      RequestedIsAskedFor(e, path);
    }
    if AsksFor(e.command, path) {
      AskedForIsRequested(e, path);
    }
  }

  /** Typed in normal mode, ":w data" writes to "t": the prompt takes none of the letters d and a. */
  lemma TypedPathLosesLetters(e: State)
    requires e.mode == Normal && Sound(e)
    ensures Sound(Typing(e, ":w data"))
    ensures Pressed(Typing(e, ":w data"), Enter).1 == RequestIo(SaveAs("t"))
  {
    TypingKeepsSound(e, ":w data");
    assert ":" + "w data" == ":w data";
    CommandTyped(e, "w data");
    DataAtPrompt();
    ShortPathAskedFor();
    WriteAsOutcome(Typing(e, ":w data"), "t");
  }

  lemma ShortPathAskedFor()
    ensures AsksFor("w t", "t")
  {
    var core := "w " + "" + "t";
    assert core == "w t" && "" + core + "" == "w t";
    assert Blank("") && Padded("w t", core);
  }

  lemma PromptOne(c: char, rest: string)
    ensures AtPrompt([c] + rest) == (if PromptTakes(c) then [c] else "") + AtPrompt(rest)
  {
    assert ([c] + rest)[1..] == rest;
  }

  lemma DataAtPrompt()
    ensures AtPrompt("w data") == "w t"
  {
    PromptOne('a', "");
    PromptOne('t', "a");
    PromptOne('a', "ta");
    PromptOne('d', "ata");
    PromptOne(' ', "data");
    PromptOne('w', " data");
  }

  /** A path of characters the prompt takes arrives as typed: that is exactly when typing it asks for it. */
  lemma PathArrivesIff(path: string)
    requires forall i :: 0 <= i < |path| ==> Printable(path[i])
    ensures AtPrompt(path) == path <==> forall i :: 0 <= i < |path| ==> PromptTakes(path[i])
  {
    AtPromptAllIff(path);
  }
}
