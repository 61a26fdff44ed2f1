# appcmd — a Dafny model of the letter-key app switcher

appcmd is a macOS menu-bar utility. Holding Right Command and pressing a letter
brings forward an application whose name starts with that letter, or the
application assigned to that letter. Right Command + Option + letter assigns the
frontmost application to the letter. This project models the logic behind that:

- `store.dfy` (module `Store`): the persisted letter → application table and the
  settings beside it (`ConfigStore`). The table is an ordered list that may hold
  several rows with one key. Lookup takes the first match. Setting replaces the
  first match or appends. Removing drops every row with the key.
- `candidates.dfy` (module `Candidates`): `apps(for:)`. It takes the running regular
  applications whose lowercased name starts with the letter, adds the assigned
  application if it is running, and sorts the result by name.
- `switcher.dfy` (module `Switcher`): the `AppSwitcher` class. Its state is
  `currentApps`, `currentSelectedIndex` and a log of the platform calls it makes:
  activate, hide, launch, show or hide the overlay, show the HUD, save the
  configuration. `HandleSwitchKey`, `UpdateOverlaySelection`,
  `HandleStaticAssignment`, `StaticWithOverlay`, `StaticWithHud` and
  `CycleDynamic` are proved equal to a step function on a `View` of that state;
  the step functions carry the properties: which index is selected, which app is
  activated, when the overlay is shown, and when an app is launched. The other
  methods (`HandleKeyRelease`, `HideOverlay`, `HandleAssignKey`,
  `AdvancePastFront`) state their new fields directly.
- `hotkeys.dfy` (module `Hotkeys`): the event-tap callback of `HotkeyManager`. It
  tracks whether Right Command alone is held, reports the release, and turns
  Right Command + letter into a switch or an assignment that swallows the key.
  `start()` is modelled as well.
- `text.dfy` and `wrappers.dfy`: ASCII lowercasing, string order, and `Option`.

The workspace (the running applications and the frontmost one) is an input
value, `Workspace`. A running application is a record carrying a process id, so
record equality is the identity that Swift's `==` and `firstIndex(of:)` use.

## Model

| member | source | states |
|---|---|---|
| Text.Lower | Sources/AppSwitcher.swift:33 | the result is a lowercase ASCII letter exactly when the input is an ASCII letter of either case; an uppercase letter moves up by 32 code points to its lowercase partner; it is never uppercase; other characters are unchanged |
| Text.LowerIdempotent | Sources/AppSwitcher.swift:44 | lowercasing an already lowercased letter again changes nothing, so `apps(for:)` sees the same letter as `handleSwitchKey` |
| Text.LowerString | Sources/HotkeyManager.swift:67 | `lowercased()` keeps the length and lowercases each character |
| Text.Less | Sources/AppSwitcher.swift:62 | a proper prefix sorts first, otherwise the first differing character decides; only a non-empty string has anything before it |
| Text.LessIrreflexive | Sources/AppSwitcher.swift:62 | no name sorts before itself |
| Text.LessTransitive | Sources/AppSwitcher.swift:62 | the name order is transitive |
| Text.LessFirstDifference | Sources/AppSwitcher.swift:62 | two names that agree up to a position and differ there are ordered exactly as their characters at that position |
| Text.LessPrefixNot | Sources/AppSwitcher.swift:62 | no name sorts before one of its own prefixes |
| Wrappers.Option.GetOr | Sources/ConfigStore.swift:20-23 | Swift's `??`: the wrapped value when there is one, the fallback otherwise |
| Store.Config.OverlayEnabled | Sources/ConfigStore.swift:20 | the overlay counts as on exactly when it was stored as on |
| Store.Config.CheatSheetEnabled | Sources/ConfigStore.swift:21 | the cheat sheet counts as off exactly when it was stored as off |
| Store.Config.ActiveTheme | Sources/ConfigStore.swift:22 | the theme is compact exactly when compact was stored |
| Store.Config.Delay | Sources/ConfigStore.swift:23 | the long-press delay is the stored value, or 1.5 when none was stored |
| Store.EmptyConfig | Sources/ConfigStore.swift:12-23 | `Config()` has an empty table, the overlay off, the cheat sheet on, the comfortable theme and a 1.5 s delay |
| Store.FirstKeyIndex | Sources/ConfigStore.swift:74 | the index of the first row with the key; none exactly when no row has the key |
| Store.Lookup | Sources/ConfigStore.swift:67-70 | a found row is in the table and has the key; nothing is found exactly when no row has the key |
| Store.LookupIsFirstMatch | Sources/ConfigStore.swift:67-70 | lookup returns the row at the first matching index |
| Store.Upserted | Sources/ConfigStore.swift:72-79 | with a matching row, only the first match is replaced and the length is kept; without one, the row is appended and the old rows are kept |
| Store.UpsertThenLookup | Sources/ConfigStore.swift:67-79 | after a row is set under its own key, lookup of that key returns it, even when the table held duplicates |
| Store.UpsertKeepsKeysDistinct | Sources/ConfigStore.swift:72-79 | setting keeps a table whose keys are distinct distinct |
| Store.WithoutKey | Sources/ConfigStore.swift:108-111 | removal never lengthens the table, and every kept row was in the table and has another key |
| Store.WithoutKeyAppend | Sources/ConfigStore.swift:110 | removal distributes over concatenation, so kept rows stay in their original order |
| Store.WithoutKeyKeepsOthers | Sources/ConfigStore.swift:110 | no row with the key survives, and every row with another key keeps its multiplicity |
| Store.RemoveThenLookup | Sources/ConfigStore.swift:108-111 | after removal lookup of the key finds nothing, and lookup of any other key is unchanged |
| Store.ConfigStore.constructor | Sources/ConfigStore.swift:91-102 | the store starts from the decoded configuration, or an empty one when there is none |
| Store.ConfigStore.AllAssignments | Sources/ConfigStore.swift:104-106 | the whole table in stored order |
| Store.ConfigStore.SetAssignment | Sources/ConfigStore.swift:72-79 | the loop finds the first matching row; the new table is `Upserted` of the old one and nothing else changes |
| Store.ConfigStore.RemoveAssignment | Sources/ConfigStore.swift:108-111 | the loop keeps the rows with other keys in order; the new table is `WithoutKey` of the old one |
| Store.ConfigStore.SetOverlayEnabled | Sources/ConfigStore.swift:29-32 | only the stored flag changes, and the getter then returns the value set |
| Store.ConfigStore.SetCheatSheetEnabled | Sources/ConfigStore.swift:34-37 | only the stored flag changes, and the getter then returns the value set |
| Store.ConfigStore.SetTheme | Sources/ConfigStore.swift:39-42 | only the stored theme changes, and the getter then returns the theme set |
| Store.ConfigStore.SetLongPressDelay | Sources/ConfigStore.swift:44-47 | only the stored delay changes, and the getter then returns the value set |
| Candidates.NameStartsWith | Sources/AppSwitcher.swift:48-51 | a match needs a non-empty name and is never against an uppercase letter; for a lowercase letter, a non-empty name matches exactly when it starts with that letter in either case |
| Candidates.Matching | Sources/AppSwitcher.swift:45-52 | an app is kept exactly when it runs, is regular and its lowercased name starts with the letter; every copy of a kept app is kept and no other app is |
| Candidates.FirstWithBundle | Sources/AppSwitcher.swift:56 | the first running app with the bundle id; none exactly when no running app has it |
| Candidates.AssignedRunning | Sources/AppSwitcher.swift:55-56 | the app is running, the letter has a row, and the app carries that row's bundle id; there is none exactly when the letter has no row or no running app has its bundle id; with a row it is the first running app with that bundle id |
| Candidates.SortKey | Sources/AppSwitcher.swift:62 | the name an app sorts by: its localized name, or the empty string when it has none |
| Candidates.InsertByName | Sources/AppSwitcher.swift:62 | insertion adds exactly the one app |
| Candidates.InsertByNameSorted | Sources/AppSwitcher.swift:62 | inserting into a name-sorted list keeps it sorted |
| Candidates.SortByName | Sources/AppSwitcher.swift:62 | the result is sorted by name and is a permutation of the input |
| Candidates.WithAssigned | Sources/AppSwitcher.swift:54-60 | the list gains the running assigned app and nothing else |
| Candidates.AppsFor | Sources/AppSwitcher.swift:43-63 | the candidates are sorted by name; an app is a candidate exactly when it is a regular running app whose name starts with the lowercased letter or is the running assigned app; the list is a permutation of the filtered list plus the assigned app |
| Candidates.AppsForDistinct | Sources/AppSwitcher.swift:43-63 | the candidate list holds no app twice when the workspace lists none twice |
| Switcher.IndexOf | Sources/AppSwitcher.swift:124 | the first index of the app; none exactly when it is absent |
| Switcher.SuccessorIndex | Sources/AppSwitcher.swift:124-128 | `(firstIndex + 1) % n` is in range and is the position right after the app's first occurrence on the ring; 0 when it is absent |
| Switcher.OwnIndex | Sources/AppSwitcher.swift:148-152 | the app's first index when present, else 0 |
| Switcher.SwiftRem | Sources/AppSwitcher.swift:72 | Swift's truncating `%`: in range for a non-negative operand; for a negative one it lies in `(-n, 0]` and is 0 exactly when `n` divides the operand |
| Switcher.OffsetSelectionInRange | Sources/AppSwitcher.swift:72 | whenever Swift's `(index + offset + n) % n` is not negative, the new index is in range and is `index + offset` reduced modulo `n` |
| Switcher.OffsetSelectionBelowRange | Sources/AppSwitcher.swift:72 | with `index + offset + n` negative the result depends on divisibility: index 0 on two apps moved by -3 gives -1, moved by -4 gives 0 |
| Switcher.OverlayEffects | Sources/AppSwitcher.swift:142-144 | the overlay is shown and only the target is activated; nothing is launched |
| Switcher.HudEffects | Sources/AppSwitcher.swift:186-188 | only the target is activated; no overlay is shown and nothing is launched |
| Switcher.HideAndAdvance | Sources/AppSwitcher.swift:121-133 | the focused app is hidden first, then the overlay is shown and the app at the new index is the only one activated |
| Switcher.CycleStep | Sources/AppSwitcher.swift:212-237 | an empty list changes nothing; otherwise the new index is the one after the frontmost app (or 0), the app under it is the only one activated, and the overlay is shown exactly when it is on and there are several candidates |
| Switcher.StaticOverlayStep | Sources/AppSwitcher.swift:114-173 | an assigned app that is not running is launched and the index kept; a running one not in front gets its own index and is the only one activated; one in front moves the index past it, hiding it first when its action is hide |
| Switcher.StaticHudStep | Sources/AppSwitcher.swift:176-199 | launch when not running; activate with a HUD when not in front; hide when in front with action hide; otherwise exactly the dynamic cycle |
| Switcher.StaticStep | Sources/AppSwitcher.swift:109-200 | only appends effects; with the overlay on and several candidates the candidate list becomes the current list; an assigned app that is not running is only launched; the overlay is shown only with the overlay on and several candidates |
| Switcher.SwitchStep | Sources/AppSwitcher.swift:32-41 | a letter without a row activates only regular running apps whose name starts with it, exactly one when there is any; a row whose app is not running only launches it; a running assigned app not in front is the one activated, and under the overlay it is the selected candidate |
| Switcher.DynamicPathTargetsMatching | Sources/AppSwitcher.swift:38-40 | without a row, every app the dynamic cycle activates is a regular running app whose name starts with the letter, and exactly one is activated when any matches |
| Switcher.StaticPathTargetsAssigned | Sources/AppSwitcher.swift:36-37 | with a row, an assigned app that is not running is only launched, and one that runs but is not in front is the one activated and, under the overlay, the selected candidate |
| Switcher.SelectStep | Sources/AppSwitcher.swift:70-80 | on a non-empty list the new index is in range and equals `index + offset` modulo the length, the overlay is shown and the app under the index is the only one activated |
| Switcher.PressAdvancesOne | Sources/AppSwitcher.swift:219-220 | on a list without duplicates, a press with the app at `p` in front selects `(p + 1) % n` |
| Switcher.RepeatedPressesCycle | Sources/AppSwitcher.swift:219-221 | `k` presses starting at `start` select `(start + k) % n`: the candidates are visited in order, wrapping round |
| Switcher.AssignedMessage | Sources/AppSwitcher.swift:106 | the HUD text is `Assigned '`, the letter, `' to ` and the app's name, in that order |
| Switcher.NewAssignment | Sources/AppSwitcher.swift:91-100 | a row exists exactly when there is a frontmost app with a bundle id; it has the lowercase key, that bundle id and path, and action cycle |
| Switcher.AppSwitcher.constructor | Sources/AppSwitcher.swift:21-22 | the candidate list starts empty with index 0 |
| Switcher.AppSwitcher.HandleSwitchKey | Sources/AppSwitcher.swift:32-41 | the new state is `SwitchStep` of the old state: the static path when the lowercase letter has a row, the dynamic cycle when it has none |
| Switcher.AppSwitcher.HandleKeyRelease | Sources/AppSwitcher.swift:65-68 | only the overlay is hidden; list and index are kept |
| Switcher.AppSwitcher.UpdateOverlaySelection | Sources/AppSwitcher.swift:70-80 | the new state is `SelectStep` of the old state |
| Switcher.AppSwitcher.HideOverlay | Sources/AppSwitcher.swift:82-86 | the overlay is hidden and the list and index are reset |
| Switcher.AppSwitcher.HandleAssignKey | Sources/AppSwitcher.swift:88-107 | without a frontmost app with a bundle id nothing changes; otherwise the table is `Upserted` with the new row, lookup of the letter now returns it, the configuration is saved and the HUD reports the assignment |
| Switcher.AppSwitcher.HandleStaticAssignment | Sources/AppSwitcher.swift:109-200 | the new state is the overlay step when the overlay is on and there are several candidates, the HUD step otherwise |
| Switcher.AppSwitcher.StaticWithOverlay | Sources/AppSwitcher.swift:114-173 | the new state is `StaticOverlayStep` of the old state |
| Switcher.AppSwitcher.AdvancePastFront | Sources/AppSwitcher.swift:117-145 | the index becomes `SuccessorIndex` of the focused app, and the effects are hide-and-advance or overlay-and-activate by its action |
| Switcher.AppSwitcher.StaticWithHud | Sources/AppSwitcher.swift:176-199 | the new state is `StaticHudStep` of the old state |
| Switcher.AppSwitcher.CycleDynamic | Sources/AppSwitcher.swift:212-237 | the new state is `CycleStep` of the old state |
| Hotkeys.RightCommandOnly | Sources/HotkeyManager.swift:34-40 | Right Command alone is held when flag bit 0x10 is set and bit 0x08 is clear |
| Hotkeys.RightCommandOnlyBits | Sources/HotkeyManager.swift:34-35 | the same test read on both bits at once: masked with 0x18 the flags are exactly 0x10 |
| Hotkeys.HotkeyLetter | Sources/HotkeyManager.swift:67-72 | a letter comes out exactly when the first typed character is an ASCII letter of either case, and it is that character lowercased |
| Hotkeys.Classify | Sources/HotkeyManager.swift:24-85 | an event is swallowed exactly when it fires a switch or assign; undecodable, key-up and other events change nothing; a modifier change sets the state to Right-Command-only and fires release exactly on true to false; a key-down without Right Command alone changes nothing; with it the state becomes true and a letter fires assign under Option, switch otherwise |
| Hotkeys.Hotkey | Sources/HotkeyManager.swift:55-85 | the switch or assign an event fires is the same whatever state it meets |
| Hotkeys.Run | Sources/HotkeyManager.swift:28-85 | feeding events one by one: no more callbacks than events; after a final decodable modifier change the state is whether Right Command alone is held; every switch or assign fired comes from an event that is a hotkey |
| Hotkeys.HotkeysOf | Sources/HotkeyManager.swift:55-85 | the hotkeys of a run of events: a callback is among them exactly when some event is that hotkey |
| Hotkeys.RunFiresOnePerHotkey | Sources/HotkeyManager.swift:28-85 | over any run of events, the switch and assign callbacks are exactly one per qualifying key press, in order |
| Hotkeys.ReleaseFollowsHotkey | Sources/HotkeyManager.swift:38-65 | after a hotkey press, a modifier change that drops Right Command fires the release |
| Hotkeys.HotkeyManager.constructor | Sources/HotkeyManager.swift:9-10 | no tap, Right Command not held, nothing fired |
| Hotkeys.HotkeyManager.Start | Sources/HotkeyManager.swift:13-102 | a second start keeps the existing tap; a first start stores the created tap, or none when creation fails |
| Hotkeys.HotkeyManager.HandleEvent | Sources/HotkeyManager.swift:16-86 | the callback classifies the event with `Classify` on the current state, then stores the new state, records the callback fired and returns the pass-through verdict |

## Left out

- Window and overlay UI (overlay, HUD and settings windows, menu-bar setup, themes, cheat-sheet layout): AppKit drawing with no logic contract. The overlay and HUD appear only as logged effects.
- Timers and dispatch: the 8 s hide timer is only the `OverlayScheduleHide` effect. The work run 0.3 s after a launch is left out: the overlay refresh, and in the HUD branch the HUD shown with the launched app's name (Sources/AppSwitcher.swift:192-198). So after the overlay's launch branch the index keeps its old value while `currentApps` is the new list, exactly as before the refresh runs, and the HUD launch branch emits only the launch.
- Configuration file I/O: JSON encoding and decoding, the file write, directory creation and the update notification are not modelled. A loaded table is an arbitrary list, duplicates allowed. `save()` is the `ConfigSaved` effect.
- Platform calls: activation, hiding, launching, tap creation and run-loop wiring, and `NSEvent` decoding are inputs or effects. How `launch` and `getAppURL` resolve a bundle path or id to a URL is not modelled.
- The callback's guard on a missing `refcon` is not modelled; the tap always passes one.
- Callbacks that are not set (`onSwitchKey` and friends being nil) are not modelled; a fired callback is recorded whether or not a handler is attached.
- `setTheme` and `setHUDEnabled` on `AppSwitcher` only forward to the UI and are not modelled.
- `SwitcherTheme` is declared twice with different cases in the repository; the model uses the configuration's `compact`/`comfortable`. Members that are referenced but not defined (`setOverlayEnabled`, `onLongPress`, `AppVersion`) are not modelled.
- Text.Lower: only ASCII letters are lowercased; full Unicode case mapping (a Kelvin sign, Turkish dotted I) is not modelled, and a `Character` is one code point, so combining marks are not modelled.
- Text.Less: Swift compares strings by Unicode canonical ordering; the model orders code points lexicographically.
- Candidates.SortByName: sortedness and permutation are proved, but not the stability of the sort.
- Candidates.AppsFor: one workspace snapshot serves both reads of the running applications.
- Switcher.AppSwitcher.UpdateOverlaySelection: requires that Swift's `(index + offset + count) % count` is not negative, the exact condition under which `currentApps[index]` does not trap; `OffsetSelectionBelowRange` shows one input that traps and one that does not. Nothing in the repository calls `updateOverlaySelection` or `hideOverlay`. Swift's trap on `Int` overflow of `index + offset + count` for a huge offset is not modelled, since integers here are unbounded.
- Switcher.AppSwitcher.HandleSwitchKey: the `showOverlay` default of `true` is not modelled as a default. The only caller (Sources/main.swift:52) relies on it, so in the program `showOverlay` is always true and the HUD fallback runs only with at most one candidate. The model's free `showOverlay` parameter covers that case as `true`.
- Store.Config.Delay: `Double` is modelled as a mathematical real.
