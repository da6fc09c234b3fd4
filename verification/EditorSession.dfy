/** The editor object driven by any sequence of events behaves as the state machine does. */
module EditorSession {
  import opened TextBuffer
  import opened Editor
  import opened EditorCore
  import opened EditorRuns

  lemma {:induction false} RunSnoc(s: Session, events: seq<Event>, event: Event)
    requires Reachable(s)
    ensures IsRun(s, events) && Reachable(Run(s, events))
    ensures IsRun(s, events + [event]) && Run(s, events + [event]) == Step(Run(s, events), event)
    decreases |events|
  {
    RunKeepsReachable(s, events);
    RunKeepsReachable(s, events + [event]);
    if events == [] {
      assert events + [event] == [event] && [event][1..] == [];
    } else {
      StepKeepsReachable(s, events[0]);
      RunSnoc(Step(s, events[0]), events[1..], event);
      assert (events + [event])[1..] == events[1..] + [event];
    }
  }

  /** What the editor answers to event `i`: keys have an outcome, loading and saving none. */
  ghost predicate Answer(events: seq<Event>, i: nat, outcome: Outcome)
    requires i < |events|
  {
    && IsRun(OPENED, events[..i])
    && var s := Run(OPENED, events[..i]);
       && Sound(s.e)
       && (events[i].Press? ==> outcome == Pressed(s.e, events[i].key).1)
       && (outcome == RequestExit(false) ==> s.e.lines == s.saved)
  }

  lemma AnswerIsSafe(events: seq<Event>, i: nat, outcome: Outcome)
    requires i < |events|
    requires IsRun(OPENED, events[..i]) && InText(Run(OPENED, events[..i]).e.lines, Run(OPENED, events[..i]).e.cursor)
    requires if events[i].Press? then outcome == Pressed(Run(OPENED, events[..i]).e, events[i].key).1
        else outcome == Continue
    ensures Answer(events, i, outcome)
  {
    RunKeepsReachable(OPENED, events[..i]);
    if events[i].Press? {
      UnforcedExitLosesNothing(events[..i], events[i].key);
    }
  }

  /** One event handed to the editor object. */
  method Handle(core: Core, event: Event, ghost s: Session) returns (outcome: Outcome)
    requires core.Valid() && core.View() == s.e && Reachable(s)
    modifies core, core.buffer
    ensures core.Valid() && core.View() == Step(s, event).e
    ensures outcome == if event.Press? then Pressed(s.e, event.key).1 else Continue
  {
    StepKeepsReachable(s, event);
    outcome := Continue;
    match event {
      case Press(key) => outcome := core.ApplyKey(key);
      case Load(text) => core.LoadContent(text);
      case MarkSaved => core.MarkSaved();
    }
  }

  /** The editor object stands where the state machine stands after the first `i` events. */
  ghost predicate At(core: Core, events: seq<Event>, i: nat)
    requires i <= |events|
    reads core, core.buffer
  {
    core.Valid() && IsRun(OPENED, events[..i]) && core.View() == Run(OPENED, events[..i]).e
  }

  method Next(core: Core, events: seq<Event>, i: nat) returns (outcome: Outcome)
    requires i < |events| && At(core, events, i)
    modifies core, core.buffer
    ensures At(core, events, i + 1) && Answer(events, i, outcome)
  {
    RunSnoc(OPENED, events[..i], events[i]);
    assert events[..i] + [events[i]] == events[..i + 1];
    outcome := Handle(core, events[i], Run(OPENED, events[..i]));
    AnswerIsSafe(events, i, outcome);
  }

  /** Runs a new editor through the events; its answers are those of the state machine and never lose work unforced. */
  method Drive(events: seq<Event>) returns (outcomes: seq<Outcome>)
    ensures |outcomes| == |events|
    ensures forall i :: 0 <= i < |events| ==> Answer(events, i, outcomes[i])
  {
    var core := new Core();
    outcomes := [];
    assert events[..0] == [];
    for i := 0 to |events|
      invariant At(core, events, i)
      invariant |outcomes| == i
      invariant forall k :: 0 <= k < i ==> Answer(events, k, outcomes[k])
    {
      var outcome := Next(core, events, i);
      outcomes := outcomes + [outcome];
    }
  }
}
