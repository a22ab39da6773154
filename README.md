# Browser tab refresher: the tab manager and the refresh-time list

This project models, in Dafny, the logic at the core of the browser tab
refresher, a desktop tool that keeps a list of browser windows ("managed
tabs"), refreshes them on demand or at scheduled times of day, and lets the
user edit the times in a dialog.

Two classes are modelled.

- `TabRegistry.TabManager` (tab_manager.py) holds the chosen browser, the
  ordered list of managed tabs and the map from the string form of a window id
  to its `HH:MM` refresh times. Adding and removing tabs, choosing the
  browser, setting, removing, reading and firing scheduled times, and
  refreshing every tab are methods over these fields. The pure helpers
  are functions: the title tests, `_extract_tab_name`, the parse of the
  macOS window listing with its fallback windows, and the Linux stand-in
  windows.
- `ScheduleDialog.TimeScheduleDialog` (time_schedule_dialog.py) is reduced to
  its `times` list. An entry is `H:M` or `H:M:S`; one starting with `*`
  repeats daily. The model covers the constructor's filter,
  `update_time_list`, `add_time`, `clear_all_times`, `_validate_time_format`,
  `get_times`, `get_times_with_repeat` and the counts of `update_status`.

Supporting modules model the Python built-ins the code relies on:
- `Strings`: `split`, `in`, `strip`, `lower`;
- `Decimal`: `int()`, `str()` and `{:02d}`;
- `Lists`: comprehension filters, `list.remove` and `sorted` under Python's
  string order;
- `InsertionDict`: a `dict` as an insertion-ordered list of key/value slots,
  so that "map iteration order" is expressible;
- `Clock`: the `HH:MM` and `HH:MM:SS` forms.

Effects are parameters:
- the operating system's refresh outcome on Windows and macOS is an oracle
  `outcome(id)`; on every other platform `refresh_tab` reports success
  without touching the window (tab_manager.py:276-285);
- the oracle gives one answer per id: when two keys that read as the same
  integer (say "5" and "005") are both due in one `check_scheduled_refreshes`
  pass, Python calls `refresh_tab(5)` twice and may get two different
  answers, while the model gives both calls the same outcome;
- the current minute (`time.strftime("%H:%M")`) is the string `now`;
- the output of the AppleScript call is an `Option<string>`;
- `save_tabs` only increments the ghost counter `saves`.

Behaviour of the code worth knowing:
- `remove_tab` leaves the tab's scheduled times in the map;
- a scheduled time is never consumed after it fires;
- `add_time` does not strip a `*` typed into the time itself, so such input is
  rejected;
- `add_scheduled_refresh` accepts `HH:MM` only: a time with seconds is dropped.

## Model

| member | source | states |
|---|---|---|
| TabRegistry.TabManager.constructor | tab_manager.py:26-45 | each of browser type, managed tabs and schedule map is taken from the settings dict, or defaults to "chrome", no tabs, an empty map |
| TabRegistry.TabManager.AddTab | tab_manager.py:252-265 | refused, with nothing changed, exactly when some managed tab already has the id; otherwise `{id, name}` is appended last and saved; ids stay unique; the browser and the schedule map are untouched |
| TabRegistry.AddTabFresh | tab_manager.py:255-263 | appending a tab whose id is not yet managed keeps the ids unique |
| TabRegistry.TabManager.RemoveTab | tab_manager.py:267-274 | succeeds exactly when some tab has the id; then exactly the first such tab is cut out, the others keep their order, and the settings are saved; otherwise nothing changes; with unique ids the id is gone afterwards |
| TabRegistry.FirstTabIndex | tab_manager.py:269-270 | finds an index exactly when some tab has the id, and it is the first index holding it |
| TabRegistry.RemoveTabAt | tab_manager.py:271 | cutting out one tab keeps the others in order and the ids unique, and the cut id is no longer present |
| TabRegistry.TabManager.SetBrowserType | tab_manager.py:407-413 | accepts exactly "chrome" and "edge" in any ASCII case, stores the lower-case form and saves; anything else changes nothing |
| TabRegistry.TabManager.AddScheduledRefresh | tab_manager.py:415-446 | succeeds exactly when some given time is accepted; the tab's list becomes the sorted zero-padded accepted times, stored under `str(id)`; otherwise the map, tabs and browser are unchanged; keys stay unique |
| TabRegistry.ValidatedTimesSpec | tab_manager.py:424-435 | the loop keeps one normalised time per accepted input, in input order |
| TabRegistry.ValidatedTimesClock | tab_manager.py:428-430 | every kept time is the `HH:MM` of an hour 0..23 and a minute 0..59 |
| TabRegistry.ScheduleTimeCanonical | tab_manager.py:428-430 | an accepted time is written `HH:MM` for an in-range hour and minute, and checking that form again gives it back unchanged |
| TabRegistry.ScheduleRejectsSeconds | tab_manager.py:428 | a three-field time such as "08:00:00" is rejected |
| TabRegistry.StoredTimesChronological | tab_manager.py:442 | the stored list, sorted as strings, is in order of time of day |
| TabRegistry.ScheduledAfterPut | tab_manager.py:476-485 | after storing a list for an id, reading that id gives the list, and every other id reads as before |
| TabRegistry.IdKeyInjective | tab_manager.py:438 | `str(id)` never maps two ids to one key |
| TabRegistry.TabManager.RemoveScheduledRefresh | tab_manager.py:448-474 | reports whether the id's key was present, even when the time was not in its list; the new map is the specified removal; keys stay unique; saves exactly when the key was present |
| TabRegistry.AfterRemoveSpec | tab_manager.py:456-472 | no time: the key goes; a listed time: one copy goes, and the key goes when its list runs empty; an unlisted time changes nothing; other keys read as before; keys stay unique; no empty list is left behind |
| TabRegistry.TabManager.GetScheduledRefreshes | tab_manager.py:476-485 | the list stored under `str(id)`, or an empty list when there is none |
| TabRegistry.TabManager.CheckScheduledRefreshes | tab_manager.py:487-502 | returns the ids the schedule makes due at `now` and whose refresh succeeded, in map order; the map is not changed |
| TabRegistry.DueIdsMembers | tab_manager.py:492-500 | an id is reported exactly when some key reading as that integer lists `now` and its refresh succeeds; keys that are not integers are skipped |
| TabRegistry.ScheduledTimeFires | tab_manager.py:415-502 | once a time is scheduled for a tab, a check at that minute reports the tab, provided its refresh succeeds |
| TabRegistry.RefreshTabByPlatform | tab_manager.py:276-285 | a definitional unfolding of the dispatch: `refresh_tab` reports the operating system's outcome on Windows and macOS, and success on every other platform |
| TabRegistry.TabManager.RefreshAllTabs | tab_manager.py:387-405 | exactly one result per managed tab, in order, holding the tab's name and its refresh outcome |
| TabRegistry.TitleMatchByPlatform | tab_manager.py:218-234 | on macOS the title tests match exactly as on Linux, and a title Windows accepts is accepted on every platform |
| TabRegistry.ExtractFromSuffixedTitle | tab_manager.py:236-250 | a title `page - browser` with no other dash yields the trimmed page name, whichever of the five suffixes matches first |
| TabRegistry.ExtractWithoutSeparator | tab_manager.py:249-250 | a title without " - " is only trimmed |
| TabRegistry.TabManager.MacosGetBrowserWindows | tab_manager.py:129-184 | the windows are what the listing specifies: none for absent or empty output; otherwise the scanned lines, with the four stand-ins (ids 1000..) appended after the windows read so far when an id does not parse |
| TabRegistry.ScanOutputLines | tab_manager.py:154-163 | the loop over the lines yields exactly the specified scan: skipped lines, windows cut at the first comma, and the stop at the first id `int()` rejects |
| TabRegistry.ScanLine | tab_manager.py:155-158 | a line is skipped exactly when its stripped form has no comma |
| TabRegistry.MacosListingRoundTrip | tab_manager.py:138-163 | for a non-empty listing whose titles are one line and do not end in whitespace, parsing what the script prints gives those windows back, in order, with ids, titles and the names read from the titles |
| TabRegistry.PlaceholdersConsistent | tab_manager.py:175-180 | each stand-in window's name is what `_extract_tab_name` reads from its title, and their ids are distinct |
| TabRegistry.FallbackTitlesPlain | tab_manager.py:170-173 | the stand-in titles and browser names have no dash and nothing to trim |
| TabRegistry.StandInsConsistent | tab_manager.py:170-180 | the four macOS stand-ins (ids 1000..1003) and the four Linux stand-ins (ids 2000..2003) are each named after their title and have distinct ids |
| TabRegistry.ScanLinesNamed | tab_manager.py:159-163 | every window read from the listing is named after its title |
| TabRegistry.MacosWindowsNamed | tab_manager.py:129-184 | every window reported on macOS, read or stand-in, is named after its title; when an id fails to parse the last four are the stand-ins |
| TabRegistry.TabManager.LinuxGetBrowserWindows | tab_manager.py:186-200 | the four stand-ins Google, GitHub, Stack Overflow, YouTube, titled with the browser name, ids 2000.. |
| ScheduleDialog.NormalizeTime | time_schedule_dialog.py:187-219 | the normalisation in `add_time` accepts a time exactly when `_validate_time_format` does |
| ScheduleDialog.NormalizeTwoFields | time_schedule_dialog.py:187-201 | `H:M` is accepted exactly when both fields are integers in range, and becomes the zero-padded `HH:MM` |
| ScheduleDialog.NormalizeThreeFields | time_schedule_dialog.py:187-201 | `H:M:S` is accepted exactly when all three fields are integers in range, and becomes the zero-padded `HH:MM:SS` |
| ScheduleDialog.NormalizeCanonical | time_schedule_dialog.py:196-201 | the stored form is valid, a fixed point of the normalisation, has the input's number of fields, and each field reads back as the input's value |
| ScheduleDialog.NormalizePads | time_schedule_dialog.py:197-198 | "9:5" is stored as "09:05" |
| ScheduleDialog.NormalizeRejectsMarker | time_schedule_dialog.py:186-219 | a time typed with a leading `*` is rejected |
| ScheduleDialog.ValidTimeIsOneShot | time_schedule_dialog.py:134-156 | a valid time never starts with `*` |
| ScheduleDialog.MarkedDecodes | time_schedule_dialog.py:222-225 | marking a valid time gives an entry that is kept, repeats exactly when marked, and strips back to the time |
| ScheduleDialog.TimeScheduleDialog.constructor | time_schedule_dialog.py:8-14 | the list is the given entries that pass `_validate_time_format` as they stand, in order; every kept entry is valid |
| ScheduleDialog.ReopenDropsRepeating | time_schedule_dialog.py:11-13 | a `*` entry handed to the constructor is always discarded |
| ScheduleDialog.TimeScheduleDialog.UpdateTimeList | time_schedule_dialog.py:104-130 | keeps, in order, exactly the entries whose marker-stripped form is valid |
| ScheduleDialog.KeepWhenAllKept | time_schedule_dialog.py:126-127 | the filtered list is all valid, and equals the list when nothing was dropped |
| ScheduleDialog.TimeScheduleDialog.AddTime | time_schedule_dialog.py:158-238 | succeeds exactly when the time normalises and its (marked) form is not yet listed; then that form is appended last; otherwise nothing changes; the list stays valid and duplicate-free |
| ScheduleDialog.TimeScheduleDialog.ClearAllTimes | time_schedule_dialog.py:265-275 | the list is empty afterwards |
| ScheduleDialog.TimeScheduleDialog.GetTimes | time_schedule_dialog.py:295-306 | a rearrangement of the list with every one-shot entry before every repeating one, each group in ascending string order |
| Lists.SortedUnique | time_schedule_dialog.py:302-303 | a sorted arrangement of a list is unique, so the modelled sort agrees with Python's |
| ScheduleDialog.Record | time_schedule_dialog.py:318-326 | an entry gives a record exactly when its marker-stripped form is valid; the record repeats exactly when the entry starts with `*` and encodes back to the entry |
| ScheduleDialog.TimeScheduleDialog.GetTimesWithRepeat | time_schedule_dialog.py:308-326 | the loop yields exactly the specified records |
| ScheduleDialog.RepeatRecordsDecode | time_schedule_dialog.py:308-326 | one record per kept entry, in list order, repeating exactly when the entry starts with `*`, holding the entry without the `*`, encoding back to the entry |
| ScheduleDialog.TimeScheduleDialog.Status | time_schedule_dialog.py:277-293 | the total is the list's length and the sum of the one-shot and repeating counts, which are the sizes of the two groups of `get_times` |
| ScheduleDialog.RepeatCountFilter | time_schedule_dialog.py:284 | the repeat count is the number of entries starting with `*` |
| Decimal.IntToString | tab_manager.py:438 | `int(str(n)) == n` |
| InsertionDict.PutSpec | tab_manager.py:442 | assigning a key gives it the new value, leaves every other key as it was and keeps keys unique |
| InsertionDict.DeleteSpec | tab_manager.py:460 | deleting a key removes it, leaves every other key as it was, keeps keys unique and keeps the other keys in their order |

## Left out

- File I/O: `load_tabs` and `save_tabs` (tab_manager.py:55-86) are not modelled; a save only increments the ghost counter `saves`.
- `get_tab_handles` is not modelled: it builds the dict handed to the settings file, which is I/O.
- The constructor with no settings dict calls `load_tabs`, which reads a file; only construction from a dict is modelled.
- Window enumeration on Windows (`_windows_get_browser_windows`, tab_manager.py:97-127) is not modelled.
- Refresh on Windows and macOS (`_windows_refresh_tab` and `_macos_refresh_tab`: pygetwindow, pyautogui, osascript key presses) is an operating-system effect; its outcome is the oracle `outcome(id)`.
- The AppleScript subprocess `_run_applescript` is not modelled; its output is a parameter of `MacosGetBrowserWindows`, with None for a failed call.
- The `time.sleep` delays in `refresh_all_tabs` and elsewhere are timing only.
- `get_browser_windows` only dispatches on the platform to the per-platform functions and is not modelled separately.
- `get_scheduled_refreshes()` with no id returns the whole map, which needs no contract beyond the field itself.
- TabRegistry.TabManager.GetScheduledRefreshes: the returned list is a copy here, whereas Python returns the stored list itself, so aliasing through it is not modelled.
- `remove_selected_times` depends on the widget's selected rows and is not modelled.
- Qt widgets, status labels and the `print` diagnostics are not modelled; `update_status` is reduced to its counts.
- `add_time` with no time reads the `QTimeEdit` widget, and with no `repeating` flag reads a checkbox; both arguments are required here.
- `str()` applied to a non-string argument of `add_time`, and the `isinstance` checks against non-string entries, are left out: every entry is a string here.
- Decimal.ParseInt: Python's `int()` also accepts surrounding whitespace, `_` digit separators and non-ASCII Unicode decimal digits (such as "٠٨"); the model accepts only an optional sign followed by ASCII digits.
- Strings.Lower: only ASCII letters are lower-cased, whereas Python's `lower()` covers all of Unicode.
- TabRegistry.ScanLine: its contract states only when a line is skipped; what an entry holds is stated by TabRegistry.MacosListingRoundTrip for well-formed listings.
- TabRegistry.TabManager.CheckScheduledRefreshes: the refresh oracle answers once per id, so two due keys reading as the same integer share one outcome, where Python refreshes the window twice and could see two outcomes.
- TabRegistry.TabManager.RefreshAllTabs: for the same reason, two managed tabs with the same id (settings handed to the constructor may repeat one) get one shared outcome, where Python refreshes that window twice.
- Concurrency is not modelled: the timers fire on one Qt event loop.
