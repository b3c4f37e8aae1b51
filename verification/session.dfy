/**
 An editor session as a sequence of events delivered one at a time on the
 editor's main thread: menu commands, play-mode transitions and periodic
 ticks carrying the current time. The session's log collects every host call
 in the order the handlers made them.
 */
module Session {
  import opened EditorPrefs
  import opened AutoSave

  datatype Event =
    | EnableCommand
    | DisableCommand
    | PlayModeChanged(change: PlayModeStateChange)
    | Update(now: int)

  /** Dispatches one event to its handler. */
  function Handle(e: Editor, ev: Event): Step {
    match ev
    case EnableCommand => Step(EnableAutoSave(e), [])
    case DisableCommand => Step(DisableAutoSave(e), [])
    case PlayModeChanged(change) => AutoSaveWhenPlaymodeStarts(e, change)
    case Update(now) => OnEditorUpdate(e, now)
  }

  /** Delivers `events` in order, appending each handler's calls to the log. */
  function Run(e: Editor, events: seq<Event>): Step
    decreases |events|
  {
    if events == [] then Step(e, [])
    else
      var before := Run(e, events[..|events| - 1]);
      var last := Handle(before.editor, events[|events| - 1]);
      Step(last.editor, before.calls + last.calls)
  }

  /** The value of the most recent menu command, or `initial` when there was none. */
  function LastCommand(events: seq<Event>, initial: bool): bool
    decreases |events|
  {
    if events == [] then initial
    else
      match events[|events| - 1]
      case EnableCommand => true
      case DisableCommand => false
      case _ => LastCommand(events[..|events| - 1], initial)
  }

  /** Whether any menu command occurs in `events`. */
  predicate HasCommand(events: seq<Event>) {
    exists i :: 0 <= i < |events| && (events[i] == EnableCommand || events[i] == DisableCommand)
  }

  /**
   Number of "exiting edit mode" transitions delivered while auto-save was on,
   judged only from the commands before each of them.
   */
  function ExitSaves(initial: bool, events: seq<Event>): nat
    decreases |events|
  {
    if events == [] then 0
    else
      var prefix := events[..|events| - 1];
      ExitSaves(initial, prefix)
        + (if events[|events| - 1] == PlayModeChanged(ExitingEditMode) && LastCommand(prefix, initial) then 1 else 0)
  }

  /** The times of the ticks that saved, in delivery order. */
  function TickSaveTimes(e: Editor, events: seq<Event>): seq<int>
    decreases |events|
  {
    if events == [] then []
    else
      var prefix := events[..|events| - 1];
      var ev := events[|events| - 1];
      TickSaveTimes(e, prefix)
        + (if ev.Update? && Due(Run(e, prefix).editor, ev.now) then [ev.now] else [])
  }

  /**
   After any session the flag equals the most recent command (or its start
   value when there was none), and once a command has run the store holds
   that same value under the flag's key. Other preference keys are never
   touched, and the timer is not moved by commands.
   */
  lemma {:induction false} LastCommandWins(e: Editor, events: seq<Event>)
    ensures Run(e, events).editor.enabled == LastCommand(events, e.enabled)
    ensures HasCommand(events) ==>
      EnabledKey in Run(e, events).editor.prefs
      && Run(e, events).editor.prefs[EnabledKey] == LastCommand(events, e.enabled)
    ensures OtherPrefsKept(e.prefs, Run(e, events).editor.prefs)
    decreases |events|
  {
    if events != [] {
      var prefix := events[..|events| - 1];
      var ev := events[|events| - 1];
      LastCommandWins(e, prefix);
      if HasCommand(events) && !ev.EnableCommand? && !ev.DisableCommand? {
        var i :| 0 <= i < |events| && (events[i] == EnableCommand || events[i] == DisableCommand);
        assert i < |prefix| && prefix[i] == events[i];
      }
    }
  }

  /** The in-memory flag and the store never drift apart during a session. */
  lemma {:induction false} RunKeepsConsistent(e: Editor, events: seq<Event>)
    requires Consistent(e)
    ensures Consistent(Run(e, events).editor)
    decreases |events|
  {
    if events != [] {
      RunKeepsConsistent(e, events[..|events| - 1]);
    }
  }

  /**
   The flag survives a restart: a session started from the store reads back,
   after any further events and a restart at any time, the flag it had when
   the editor closed.
   */
  lemma RestartRestoresFlag(prefs: Store, start: int, events: seq<Event>, restart: int)
    ensures Load(Run(Load(prefs, start), events).editor.prefs, restart).enabled
         == Run(Load(prefs, start), events).editor.enabled
  {
    RunKeepsConsistent(Load(prefs, start), events);
  }

  /**
   The session log is made of whole saves (scenes before assets, each once
   per save): one per tick that saved and one per edit-mode exit while
   auto-save was on.
   */
  lemma {:induction false} SaveLogCounts(e: Editor, events: seq<Event>)
    ensures IsSaveLog(Run(e, events).calls)
    ensures SaveCount(Run(e, events).calls) == |TickSaveTimes(e, events)| + ExitSaves(e.enabled, events)
    decreases |events|
  {
    if events != [] {
      var prefix := events[..|events| - 1];
      var ev := events[|events| - 1];
      SaveLogCounts(e, prefix);
      LastCommandWins(e, prefix);
      var before := Run(e, prefix);
      SaveLogAppend(before.calls, Handle(before.editor, ev).calls);
    }
  }

  /**
   Starting disabled, a session without an "Enable Auto Save" command never
   calls the host at all, whatever ticks and play-mode changes it sees.
   */
  lemma {:induction false} DisabledNeverSaves(e: Editor, events: seq<Event>)
    requires !e.enabled
    requires forall i :: 0 <= i < |events| ==> events[i] != EnableCommand
    ensures Run(e, events).calls == []
    ensures Run(e, events).editor.lastSaveTime == e.lastSaveTime
    decreases |events|
  {
    if events != [] {
      var prefix := events[..|events| - 1];
      DisabledNeverSaves(e, prefix);
      LastCommandWins(e, prefix);
      NoEnableKeepsDisabled(prefix, e.enabled);
    }
  }

  /** Without an enable command, a session that starts disabled stays disabled. */
  lemma {:induction false} NoEnableKeepsDisabled(events: seq<Event>, initial: bool)
    requires !initial
    requires forall i :: 0 <= i < |events| ==> events[i] != EnableCommand
    ensures !LastCommand(events, initial)
    decreases |events|
  {
    if events != [] {
      NoEnableKeepsDisabled(events[..|events| - 1], initial);
    }
  }

  /**
   The timer only moves on a tick that saved: at the end of a session it
   holds the time of the last such tick, or its start value when there was
   none. Commands and play-mode changes leave it alone.
   */
  lemma {:induction false} TimerFollowsTickSaves(e: Editor, events: seq<Event>)
    ensures var ts := TickSaveTimes(e, events);
      Run(e, events).editor.lastSaveTime == (if ts == [] then e.lastSaveTime else ts[|ts| - 1])
    decreases |events|
  {
    if events != [] {
      TimerFollowsTickSaves(e, events[..|events| - 1]);
    }
  }

  /**
   Debouncing: every tick that saves is at least the interval after the
   previous timed save (or after the session's start value of the timer).
   This holds for any tick times, ordered or not, because only a timed save
   moves the timer.
   */
  lemma {:induction false} TickSavesSpaced(e: Editor, events: seq<Event>)
    ensures var ts := TickSaveTimes(e, events);
      forall i :: 0 < i < |ts| ==> ts[i] - ts[i - 1] >= SaveInterval
    ensures var ts := TickSaveTimes(e, events);
      |ts| > 0 ==> ts[0] - e.lastSaveTime >= SaveInterval
    decreases |events|
  {
    if events != [] {
      var prefix := events[..|events| - 1];
      TickSavesSpaced(e, prefix);
      TimerFollowsTickSaves(e, prefix);
    }
  }

  /**
   Consequence of the spacing: the j-th and i-th timed saves lie at least
   (j - i) intervals apart, so the window [start, start + interval) holds at
   most one timed save.
   */
  lemma {:induction false} TickSavesAtMostOncePerInterval(e: Editor, events: seq<Event>, start: int)
    ensures var ts := TickSaveTimes(e, events);
      forall i, j :: 0 <= i < j < |ts| ==> ts[j] - ts[i] >= (j - i) * SaveInterval
    ensures var ts := TickSaveTimes(e, events);
      forall i, j :: 0 <= i < j < |ts| && start <= ts[i] < start + SaveInterval ==> !(start <= ts[j] < start + SaveInterval)
  {
    var ts := TickSaveTimes(e, events);
    TickSavesSpaced(e, events);
    forall i, j | 0 <= i < j < |ts|
      ensures ts[j] - ts[i] >= (j - i) * SaveInterval
    {
      SpacedGaps(ts, i, j);
    }
  }

  /** Consecutive gaps of at least the interval add up along a sequence. */
  lemma {:induction false} SpacedGaps(ts: seq<int>, i: int, j: int)
    requires forall k :: 0 < k < |ts| ==> ts[k] - ts[k - 1] >= SaveInterval
    requires 0 <= i <= j < |ts|
    ensures ts[j] - ts[i] >= (j - i) * SaveInterval
    decreases j - i
  {
    if i < j {
      SpacedGaps(ts, i, j - 1);
    }
  }

  /** Ticks at minutes 5, 9, 10 and 15 after an enabled start at minute 0 save only at 10. */
  lemma ScenarioTicks()
    ensures var s := Run(Load(map[], 0), [Update(5), Update(9), Update(10), Update(15)]);
      && s.calls == SaveAllOpenScenesAndAssets()
      && s.editor.lastSaveTime == 10
    ensures TickSaveTimes(Load(map[], 0), [Update(5), Update(9), Update(10), Update(15)]) == [10]
  {
    var e := Load(map[], 0);
    var events := [Update(5), Update(9), Update(10), Update(15)];
    assert events[..3] == [Update(5), Update(9), Update(10)];
    assert events[..3][..2] == [Update(5), Update(9)];
    assert events[..3][..2][..1] == [Update(5)];
    assert [Update(5)][..0] == [];
    assert Run(e, [Update(5)]) == Step(e, []);
    assert Run(e, [Update(5), Update(9)]) == Step(e, []);
    var saved := e.(lastSaveTime := 10);
    assert Run(e, events[..3]) == Step(saved, SaveAllOpenScenesAndAssets());
    assert Handle(saved, Update(15)) == Step(saved, []);
    assert TickSaveTimes(e, events[..3]) == [10];
  }

  /** Leaving edit mode at minute 3 with auto-save on saves at once and leaves the timer at 0. */
  lemma ScenarioExitEditMode()
    ensures var s := Run(Load(map[], 0), [Update(3), PlayModeChanged(ExitingEditMode)]);
      && s.calls == SaveAllOpenScenesAndAssets()
      && s.editor.lastSaveTime == 0
  {
  }
}
