# UnityAutoSave: the auto-save policy, in Dafny

The repository is a Unity Editor extension, `AutoSaveExtension`, that saves the
open scenes and the asset database every ten minutes and whenever the editor
leaves edit mode to enter play mode. Two menu commands under
"Tools/Auto Save" switch the behaviour on and off. The on/off flag is kept in
the editor's preference store under the key `"AutoSaveEnabled"`, so it
survives editor restarts. When the key was never written, the flag defaults to
on.

The model is a set of pure step functions over an immutable `Editor` record.
The record holds the flag, the time of the last timed save and the preference
store. Each handler returns the next record and the host calls it made, in
order. A session is a sequence of events: menu commands, play-mode
transitions, and editor ticks that carry the current time.

- `editor_prefs.dfy`, module `EditorPrefs`: the preference store as a
  `map<string, bool>`, with `GetBool` (absent key yields the default) and
  `SetBool`.
- `auto_save.dfy`, module `AutoSave`: the policy state and one function per
  handler of `Editor/AutoSave.cs`. This covers the static constructor (`Load`),
  both commands and their menu-validation predicates, the play-mode callback,
  the editor-update tick and the two-step save.
- `session.dfy`, module `Session`: event traces (`Run`) and the lemmas that
  hold over whole sessions.

Time is an integer number of minutes, and `SaveInterval` is 10. A save is the
host call `SaveOpenScenes` followed by `SaveAssets`, recorded in the step's
call log.

The timed-save spacing (`Session.TickSavesSpaced`) is proved for arbitrary tick
times, including ones that go backwards. This holds because only a timed save
moves `lastSaveTime`, so no assumption about a non-decreasing clock is needed.

The source's "Enable Auto Save" and "Disable Auto Save" methods do not check
the current state themselves. The menu only offers each command when its
validation predicate allows it. The model therefore applies commands
unconditionally, as the method bodies do. `AutoSave.UnofferedCommandIsHarmless`
shows that a command the menu would not offer changes nothing a user can
observe.

## Model

| member | source | states |
|---|---|---|
| AutoSave.Load | Editor/AutoSave.cs:15-28 | At startup the flag is on iff the `"AutoSaveEnabled"` key is absent or holds true, the timer starts at the startup time, the store is left as it is, and the flag agrees with what the store reads back |
| AutoSave.EnableAutoSave | Editor/AutoSave.cs:30-36 | After "Enable Auto Save" the flag is on and the store holds true under the key, other preference keys are kept, and the timer is not moved |
| AutoSave.DisableAutoSave | Editor/AutoSave.cs:44-50 | After "Disable Auto Save" the flag is off and the store holds false under the key, other preference keys are kept, and the timer is not moved |
| AutoSave.EnableAutoSaveValidate | Editor/AutoSave.cs:38-42 | "Enable Auto Save" is offered exactly when invoking it would change the flag |
| AutoSave.DisableAutoSaveValidate | Editor/AutoSave.cs:52-56 | "Disable Auto Save" is offered exactly when invoking it would change the flag |
| AutoSave.ExactlyOneCommandOffered | Editor/AutoSave.cs:38-56 | In every state exactly one of the two menu commands is offered |
| AutoSave.UnofferedCommandIsHarmless | Editor/AutoSave.cs:30-56 | A command the menu does not offer leaves both the flag and the value a restart reads back unchanged |
| AutoSave.SaveAllOpenScenesAndAssets | Editor/AutoSave.cs:77-81 | A save is one whole save: the scenes call strictly before the assets call, each exactly once |
| AutoSave.AutoSaveWhenPlaymodeStarts | Editor/AutoSave.cs:58-65 | A play-mode change saves once iff auto-save is on and the change is leaving edit mode, and never alters the flag, the store or the timer |
| AutoSave.OnEditorUpdate | Editor/AutoSave.cs:67-75 | A tick saves once and restarts the timer at `now` iff auto-save is on and at least the interval has passed; otherwise state and log are unchanged; a tick while off never saves and never moves the timer |
| Session.LastCommandWins | Editor/AutoSave.cs:30-50 | After any session the flag equals the most recent command, and once a command has run the stored value equals it too; other preference keys are never touched |
| Session.RunKeepsConsistent | Editor/AutoSave.cs:15-50 | The in-memory flag and the value a restart would read back stay equal through every event |
| Session.RestartRestoresFlag | Editor/AutoSave.cs:15-50 | A restart after any session reads back the flag the session ended with |
| Session.SaveLogCounts | Editor/AutoSave.cs:58-81 | A session's host-call log is made of whole saves, one per tick that saved plus one per edit-mode exit while auto-save was on |
| Session.DisabledNeverSaves | Editor/AutoSave.cs:58-75 | Starting with auto-save off, a session without an enable command makes no host call and never moves the timer |
| Session.NoEnableKeepsDisabled | Editor/AutoSave.cs:30-50 | Without an enable command, a flag that starts off stays off |
| Session.TimerFollowsTickSaves | Editor/AutoSave.cs:58-75 | The timer ends at the time of the last tick that saved, or at its start value if none did; commands and play-mode changes never move it |
| Session.TickSavesSpaced | Editor/AutoSave.cs:67-75 | Each timed save comes at least the interval after the previous timed save, or after the timer's start value for the first one |
| Session.TickSavesAtMostOncePerInterval | Editor/AutoSave.cs:67-75 | Timed saves i < j lie at least (j - i) intervals apart, so no window of one interval holds two timed saves |
| Session.ScenarioTicks | Editor/AutoSave.cs:67-75 | Starting enabled at minute 0, ticks at 5, 9, 10 and 15 save only at 10, and the timer ends at 10 |
| Session.ScenarioExitEditMode | Editor/AutoSave.cs:58-75 | Starting enabled at minute 0, leaving edit mode at minute 3 saves at once and leaves the timer at 0 |

## Left out

- `Debug.Log` messages (lines 35, 49, 62, 71): diagnostic output only.
- Event subscription and unsubscription in the static constructor (lines 21-22, 26-27), and the `[InitializeOnLoad]` domain-reload lifecycle: host plumbing. The model delivers events to the handlers directly.
- `[MenuItem]` wiring and the menu itself: the validation predicates are modelled, but the greying-out of menu entries is not.
- `EditorSceneManager.SaveOpenScenes`, `AssetDatabase.SaveAssets`, `EditorPrefs`: foreign host calls. The saves are log entries, and the store is a map. Failures inside them are not modelled, and neither is the boolean that `SaveOpenScenes` returns, since the source ignores it.
- `DateTime.Now` semantics such as clock resolution, clock jumps and time zones: time is an integer number of minutes handed to the handlers. Sub-minute resolution is not modelled.
- AutoSave.OnEditorUpdate: reads the clock once per tick. The source reads `DateTime.Now` a second time after the save (line 73), so it can store a time later than the one it compared. The model treats the save as instantaneous and stores the compared time.
