/**
 The auto-save policy of the editor extension: a flag that the user toggles
 from the menu and that is mirrored into the preference store, a time of the
 last timed save, and a fixed ten-minute interval. Each event handler is a
 pure function from the current editor state to the next state together with
 the host calls it makes, in order.

 Time is an integer number of minutes read from the host clock and handed to
 the handlers that read it.
 */
module AutoSave {
  import opened EditorPrefs

  /** The preference key under which the flag survives editor restarts. */
  const EnabledKey: string := "AutoSaveEnabled"

  /** The flag's value when the key has never been written. */
  const EnabledByDefault: bool := true

  /** Minimum time, in minutes, between two timed saves. */
  const SaveInterval: int := 10

  /** The host's play-mode transitions, as the editor reports them. */
  datatype PlayModeStateChange =
    | EnteredEditMode
    | ExitingEditMode
    | EnteredPlayMode
    | ExitingPlayMode

  /** The two host operations a save is made of. */
  datatype HostCall = SaveOpenScenes | SaveAssets

  /** The extension's static state plus the preference store it writes to. */
  datatype Editor = Editor(enabled: bool, lastSaveTime: int, prefs: Store)

  /** What a handler leaves behind: the next state and the host calls it made. */
  datatype Step = Step(editor: Editor, calls: seq<HostCall>)

  /** The flag a fresh editor session would read back from the store. */
  function PersistedEnabled(prefs: Store): bool {
    GetBool(prefs, EnabledKey, EnabledByDefault)
  }

  /** The in-memory flag agrees with what a restart would read back. */
  predicate Consistent(e: Editor) {
    PersistedEnabled(e.prefs) == e.enabled
  }

  /** Two states that differ at most in the preference key of the flag. */
  predicate OtherPrefsKept(before: Store, after: Store) {
    && after.Keys - {EnabledKey} == before.Keys - {EnabledKey}
    && forall k :: k in before && k != EnabledKey ==> k in after && after[k] == before[k]
  }

  /**
   A log made of whole saves only: scenes, then assets, then scenes again, and
   so on, ending after an assets call.
   */
  predicate IsSaveLog(calls: seq<HostCall>) {
    && |calls| % 2 == 0
    && forall i :: 0 <= i < |calls| ==> (calls[i] == SaveOpenScenes <==> i % 2 == 0)
  }

  /** Number of saves in a log of whole saves. */
  function SaveCount(calls: seq<HostCall>): nat {
    |calls| / 2
  }

  /** Startup: the flag is read from the store and the timer starts now. */
  function Load(prefs: Store, now: int): (e: Editor)
    ensures e.enabled <==> EnabledKey !in prefs || prefs[EnabledKey]
    ensures e.lastSaveTime == now
    ensures e.prefs == prefs
    ensures Consistent(e)
  {
    Editor(GetBool(prefs, EnabledKey, EnabledByDefault), now, prefs)
  }

  /** The "Enable Auto Save" command. */
  function EnableAutoSave(e: Editor): (e': Editor)
    ensures e'.enabled
    ensures EnabledKey in e'.prefs && e'.prefs[EnabledKey]
    ensures Consistent(e')
    ensures OtherPrefsKept(e.prefs, e'.prefs)
    ensures e'.lastSaveTime == e.lastSaveTime
  {
    e.(enabled := true, prefs := SetBool(e.prefs, EnabledKey, true))
  }

  /** The "Disable Auto Save" command. */
  function DisableAutoSave(e: Editor): (e': Editor)
    ensures !e'.enabled
    ensures EnabledKey in e'.prefs && !e'.prefs[EnabledKey]
    ensures Consistent(e')
    ensures OtherPrefsKept(e.prefs, e'.prefs)
    ensures e'.lastSaveTime == e.lastSaveTime
  {
    e.(enabled := false, prefs := SetBool(e.prefs, EnabledKey, false))
  }

  /** Whether the menu offers "Enable Auto Save": exactly when it would change the flag. */
  function EnableAutoSaveValidate(e: Editor): (offered: bool)
    ensures offered <==> EnableAutoSave(e).enabled != e.enabled
  {
    !e.enabled
  }

  /** Whether the menu offers "Disable Auto Save": exactly when it would change the flag. */
  function DisableAutoSaveValidate(e: Editor): (offered: bool)
    ensures offered <==> DisableAutoSave(e).enabled != e.enabled
  {
    e.enabled
  }

  /** One save: all open scenes first, then the asset database, once each. */
  function SaveAllOpenScenesAndAssets(): (calls: seq<HostCall>)
    ensures IsSaveLog(calls) && SaveCount(calls) == 1
    ensures multiset(calls) == multiset{SaveOpenScenes, SaveAssets}
  {
    [SaveOpenScenes, SaveAssets]
  }

  /**
   The play-mode callback: saves once when the editor leaves edit mode with
   auto-save on, and never touches the flag, the store or the timer.
   */
  function AutoSaveWhenPlaymodeStarts(e: Editor, change: PlayModeStateChange): (r: Step)
    ensures r.editor == e
    ensures IsSaveLog(r.calls)
    ensures SaveCount(r.calls) == 1 <==> e.enabled && change == ExitingEditMode
    ensures SaveCount(r.calls) <= 1
  {
    if e.enabled && change == ExitingEditMode then
      Step(e, SaveAllOpenScenesAndAssets())
    else
      Step(e, [])
  }

  /** Whether a tick at `now` is due for a timed save. */
  predicate Due(e: Editor, now: int) {
    e.enabled && now - e.lastSaveTime >= SaveInterval
  }

  /**
   The periodic editor tick: when auto-save is on and at least the interval
   has passed since the last timed save, saves once and restarts the timer
   at `now`; otherwise nothing happens at all.
   */
  function OnEditorUpdate(e: Editor, now: int): (r: Step)
    ensures IsSaveLog(r.calls)
    ensures SaveCount(r.calls) <= 1
    ensures r.editor.enabled == e.enabled && r.editor.prefs == e.prefs
    ensures SaveCount(r.calls) == 1 <==> e.enabled && now - e.lastSaveTime >= SaveInterval
    ensures SaveCount(r.calls) == 1 ==> r.editor.lastSaveTime == now
    ensures SaveCount(r.calls) == 0 ==> r.editor == e && r.calls == []
    ensures !e.enabled ==> r == Step(e, [])
  {
    if Due(e, now) then
      Step(e.(lastSaveTime := now), SaveAllOpenScenesAndAssets())
    else
      Step(e, [])
  }

  /** The two menu commands are never offered together, and one is always offered. */
  lemma ExactlyOneCommandOffered(e: Editor)
    ensures EnableAutoSaveValidate(e) != DisableAutoSaveValidate(e)
  {
  }

  /**
   A command the menu does not offer would change nothing a user can observe:
   neither the flag nor what a restart reads back.
   */
  lemma UnofferedCommandIsHarmless(e: Editor)
    requires Consistent(e)
    ensures !EnableAutoSaveValidate(e) ==>
      EnableAutoSave(e).enabled == e.enabled && PersistedEnabled(EnableAutoSave(e).prefs) == PersistedEnabled(e.prefs)
    ensures !DisableAutoSaveValidate(e) ==>
      DisableAutoSave(e).enabled == e.enabled && PersistedEnabled(DisableAutoSave(e).prefs) == PersistedEnabled(e.prefs)
  {
  }

  /** Saves concatenate: two logs of whole saves make one, and the counts add up. */
  lemma SaveLogAppend(a: seq<HostCall>, b: seq<HostCall>)
    requires IsSaveLog(a) && IsSaveLog(b)
    ensures IsSaveLog(a + b)
    ensures SaveCount(a + b) == SaveCount(a) + SaveCount(b)
  {
    forall i | 0 <= i < |a + b|
      ensures (a + b)[i] == SaveOpenScenes <==> i % 2 == 0
    {
      if i >= |a| {
        assert (a + b)[i] == b[i - |a|];
        assert (i - |a|) % 2 == i % 2;
      }
    }
  }
}
