# Temporizador con Playlist, modelled in Dafny

A model of the logic inside `TimerApp` from `main.py`. `TimerApp` is a desktop
countdown timer ("temporizador") with a music playlist and a persistent task
list. The Tk widgets and the pygame mixer are taken out. What is left is:

- the timer label format (`format_time`) and a reader for it;
- the countdown: `start_timer`, `update_timer`, `pause_timer`,
  `resume_timer`, `reset_timer`, `edit_time` and the state part of
  `finish_timer`. The repeating `root.after(1000, update_timer)` becomes an
  explicit count of pending callbacks; a tick fires one of them;
- the playlist: building it from a folder listing (the extension filter and
  the name truncation), and the cursor operations `play_playlist`,
  `stop_playlist`, `play_current`, `next_track`, `next_track_manual`,
  `previous_track` and the `check_playlist_end` poll;
- the task rows with `add_task` and `delete_task`, and the configuration
  document written by `save_config` and read by `load_config`.

Layout:

- `time_format.dfy` (`TimeFormat`): `FormatTime`, its divmod split and a
  `ParseTime` inverse.
- `timer.dfy` (`Timer`): the countdown as a state machine over values.
- `library.dfy` (`Library`): suffix filter, display names, fresh entries.
- `playlist.dfy` (`Playlist`): the cursor as a state machine over values.
- `task_config.dfy` (`TaskConfig`): task rows, the saved document and the
  restore.
- `app.dfy` (`App`): the class `TimerApp`. It has the application's fields,
  and each method follows the source's steps; the exceptions are listed
  under "Left out". Each method is proved against the value-level function
  of the module above. Its `modifies` clause names only the fields it
  writes. An exception that `save_config` raises becomes a `false` result,
  and the method and its callers stop there, as the Python calls do.
- `wrappers.dfy`: `Option`.

Inputs from outside the program become parameters:

- the dialogs' answers (`minutes`, `answer`);
- whether a folder exists and what it lists (`folderExists`, `isDir`,
  `names`);
- the parsed configuration file (`raw`, None when it is missing or
  unreadable);
- which entries fail to decode (`fails`, a set of indices);
- whether the channel is still busy at a poll (`busy`).

The ghost field `lastSaved` holds the last document written to disk.

`save_config` as written saves only when there is no task. Its comprehension
unpacks each row, a dict with the keys `frame`, `var` and `entry`, into
`(var, entry, frame)`. That binds the keys, so `entry` is the string `"var"`,
and `entry.get()` raises before the file is opened and outside the `try`.
Every save with a task row therefore raises:

- from a Tk callback (add, delete, edit, choose folder) the change to the rows
  or the folder stays, the file is not written and Tk reports the error;
- from `load_config` during start-up the exception ends the program after the
  first restored row, so a file that holds a task can never be loaded.

The model follows this (`TaskConfig.SaveAsWritten`, `App.TimerApp.SaveConfig`).
`TaskConfig.Save` is the document the code evidently means to write, and it is
the corrected half of the findings below.

Three points where the code does less than one might expect; the model
follows the code:

- `load_playlist` does not stop playback, and it does not reset the cursor.
- A volume outside 0..100 is clamped by the slider widget, not by
  `on_volume_change`.
- A duration below one minute is refused by the dialog's `minvalue`, not by
  `edit_time`.

Timer quirks are kept as written, not fixed:

- A tick that finds the timer paused does not reschedule.
- `resume_timer` does not start a new chain of callbacks.
- `reset_timer` followed by `start_timer` leaves two chains running.

## Model

| member | source | states |
|---|---|---|
| TimeFormat.Split | main.py:354-356 | the divmod chain gives secs < 60, mins < 60, hours < 24, and days·86400 + hours·3600 + mins·60 + secs equals the input |
| TimeFormat.Decimal | main.py:358 | `str(days)`: at least one character, all decimal digits, no leading zero for a positive count |
| TimeFormat.Pad2 | main.py:358-362 | `:02` padding gives exactly two digits |
| TimeFormat.FormatTime | main.py:353-362 | the label is 5 characters below an hour, 8 below a day and at least 11 from a day on |
| TimeFormat.SplitByDivision | main.py:354-356 | the divmod chain yields n / 86400 days, (n / 3600) % 24 hours, (n / 60) % 60 minutes and n % 60 seconds |
| TimeFormat.MinutesLayout | main.py:361-362 | below an hour the label is `MM:SS`: two digits holding n / 60, a colon, two digits holding n % 60 |
| TimeFormat.HoursLayout | main.py:359-360 | below a day the label is `HH:MM:SS`: two-digit fields holding n / 3600, (n / 60) % 60 and n % 60 |
| TimeFormat.DaysLayout | main.py:357-358 | from a day on the label is the day count n / 86400 in digits with no leading zero, then `d `, then two-digit fields holding the hour of the day, the minute and the second, separated by colons |
| TimeFormat.FormatLayout | main.py:353-362 | for every count, the layout chosen by the two thresholds, with each field's digits and value as in the three rows above |
| TimeFormat.DecimalRoundTrip | main.py:358 | the unpadded day count reads back to its value |
| TimeFormat.ShortRoundTrip | main.py:362 | an `MM:SS` label reads back to 60·m + s |
| TimeFormat.LongRoundTrip | main.py:360 | an `HH:MM:SS` label reads back to 3600·h + 60·m + s |
| TimeFormat.DaysRoundTrip | main.py:358 | a `Dd HH:MM:SS` label reads back to 86400·d + 3600·h + 60·m + s |
| TimeFormat.FormatParseRoundTrip | main.py:353-362 | no label loses information: reading back `format_time(n)` gives n for every n |
| TimeFormat.FormatMinutesExample | main.py:353-362 | 65 → "01:05" and 1500 → "25:00" |
| TimeFormat.FormatHoursExample | main.py:353-362 | 3665 → "01:01:05" |
| TimeFormat.FormatDaysExample | main.py:353-362 | 90065 → "1d 01:01:05" |
| Timer.Initial | main.py:30-33 | total = remaining = 25·60, not running, not paused, no callback pending, no completion, and the timer invariant holds |
| Timer.Update | main.py:370-376 | the count drops by exactly one and one callback is scheduled iff running, unpaused and above zero; it completes iff running at zero; total and paused never change; the invariant is kept |
| Timer.Finish | main.py:398-412 | the run ends and exactly one completion is signalled; nothing else changes |
| Timer.Tick | main.py:370-376 | one callback fires: the count drops by exactly one iff a callback was pending and the timer is running, unpaused and above zero; a paused tick with time left only consumes its callback; it completes iff running at zero, and then stops; the invariant is kept |
| Timer.Start | main.py:364-368 | a no-op while running; otherwise runs, unpauses and performs one update (decrement and reschedule, or finish at zero) |
| Timer.Pause | main.py:378-379 | only `paused` changes, to true |
| Timer.Resume | main.py:381-382 | only `paused` changes, to false; no callback is scheduled |
| Timer.Reset | main.py:384-388 | stopped, unpaused, remaining = total; pending callbacks and completions untouched |
| Timer.EditTime | main.py:390-396 | always stops; on cancel nothing else changes; with m ≥ 1 minutes total = remaining = 60·m; the invariant is kept |
| Timer.TicksNeverIncrease | main.py:370-376 | over any number of ticks remaining never grows and total never changes |
| Timer.PausedTicksKeepCount | main.py:371-374 | while paused with time left, ticks keep the count, drain the pending callbacks one by one and never complete |
| Timer.StoppedTicksNeverComplete | main.py:370-376 | ticks on a stopped timer change nothing but the pending count |
| Timer.AtMostOneCompletion | main.py:375-376 | any number of ticks add at most one completion, none if not running, and a completion leaves the timer stopped |
| Timer.Countdown | main.py:370-376 | one running chain with k seconds left finishes after exactly k + 1 callbacks, with one completion |
| Timer.OneMinuteRun | main.py:364-396 | set to one minute and started, 60 callbacks later the timer has stopped at zero with one completion |
| Timer.ResumeAfterPausedTickStalls | main.py:370-382 | a tick while paused ends the chain; after resume the timer shows running and unpaused but no tick ever moves it |
| Timer.ResetThenStartDoublesChain | main.py:364-388 | reset then start before the old callback fires leaves two chains, so two callbacks take two seconds off |
| Library.LastDot | main.py:240 | the position of the last '.', or -1, with no '.' after it |
| Library.Suffix | main.py:240 | `Path.suffix`: non-empty iff the name's last '.' is neither its first nor its last character; then it is the tail from that '.', with no other '.' |
| Library.AudioFiles | main.py:240 | the comprehension keeps at most the listed names; AudioFilesExactly and AudioFilesAppend state which and in what order |
| Library.AudioFilesExactly | main.py:239-240 | a name is kept iff it is in the listing and its lower-cased suffix is one of `.mp3`, `.wav`, `.ogg`, `.flac` |
| Library.AudioFilesAppend | main.py:240 | the filter commutes with concatenation, so listing order is kept |
| Library.DotFileExample | main.py:239-240 | `.mp3` has no suffix and is not taken |
| Library.UpperCaseExample | main.py:239-240 | `song.MP3` is taken: case does not matter |
| Library.DoubleExtensionExample | main.py:239-240 | `a.tar.flac` is taken on its last extension |
| Library.NonAudioExamples | main.py:239-240 | `notes.` and `cover.jpg` are not taken |
| Library.DisplayName | main.py:250 | a row label is at most 38 characters, and a name of up to 35 is shown whole |
| Library.DisplayNameSpec | main.py:250 | names of up to 35 chars are shown whole; longer ones keep their first 35 chars plus "...", so no label exceeds 38 |
| Library.NewItem | main.py:253-257 | a new entry has loop off, volume 70 and no decoded sound |
| Library.SliderValue | main.py:257-260 | the 0..100 slider keeps an in-range value and clamps the rest |
| Playlist.LoopCount | main.py:315 | -1 iff the loop box is ticked, else 0 |
| Playlist.Stop | main.py:288-293 | not playing, no channel; entries and cursor untouched |
| Playlist.PlayCurrent | main.py:295-319 | the cursor never moves back, the entry count is kept, and the result is always a valid cursor (playing only on an entry whose playback is on the channel); PlayCurrentSkips states where it lands |
| Playlist.NextTrack | main.py:321-330 | a no-op when stopped; when playing the cursor moves strictly forward and is valid afterwards; the entry count is kept |
| Playlist.PlayPlaylist | main.py:280-286 | a no-op on an empty list; otherwise a valid cursor over the same number of entries (the started entry becomes decoded) |
| Playlist.NextTrackManual | main.py:332-337 | keeps a valid cursor valid, never moves back and keeps the entries' count |
| Playlist.PreviousTrack | main.py:339-344 | keeps a valid cursor valid and keeps the entries' count |
| Playlist.Poll | main.py:346-349 | keeps a valid cursor valid and never moves the cursor back |
| Playlist.PlayCurrentSkips | main.py:295-319 | from a playing cursor, play_current skips every entry that fails to decode and starts the first one that decodes, with its loop count and volume, caching only that entry; with none left it stops one past the end |
| Playlist.NextTrackAdvances | main.py:321-330 | while playing, next_track moves strictly forward to a playable entry, or stops with no channel |
| Playlist.PlayPlaylistStart | main.py:280-286 | a no-op on an empty list; otherwise playing from entry 0 when it decodes, stopped past the end when none does |
| Playlist.ManualStepsClamp | main.py:332-344 | both buttons do nothing when stopped or empty; previous does nothing at entry 0 and next does nothing at the last entry; otherwise they step by one and, when the target is playable, play it there; an undecodable target skips on as play_current does, so next can stop one past the end (ManualNextCanStopPastEnd) |
| Playlist.ManualNextCanStopPastEnd | main.py:320-337 | two entries, playing at 0, the second undecodable: next_track_manual steps to it, play_current skips on through next_track and the playlist stops one past the end with no channel |
| Playlist.PollAdvancesOnlyWhenSilent | main.py:346-349 | the poll changes the state only when playing with a channel that is no longer busy, and then moves forward |
| Playlist.CursorValidPreserved | main.py:280-349 | play, stop, next, manual next, previous and the poll keep "playing ⇒ the index is an entry and the channel plays it" |
| Playlist.ReloadCanBreakCursor | main.py:230-237 | a reload to a shorter folder leaves a playing cursor past the end |
| TaskConfig.Save | main.py:53-59 | the intended document: every row's task in row order, with the folder given; RoundTrip reads it back |
| TaskConfig.Encode | main.py:53-62 | the written document reads back with a task list of the same length, each object with both keys present holding that task's text and checked flag, and the same folder |
| TaskConfig.RestoreTask | main.py:80 | a missing "text" becomes "" and a missing "checked" becomes false; present keys are kept |
| TaskConfig.RestoredFolder | main.py:83-86 | the folder is restored iff it is present, non-empty and a directory |
| TaskConfig.RestoreAll | main.py:79-80 | one restored task per task object, entry k restored from object k |
| TaskConfig.RestoreAllSnoc | main.py:79-80 | restoring one more task object appends one task |
| TaskConfig.RestoreSavingSpec | main.py:78-80 | the restore loop with save_config corrected appends one restored task per object in order, and its last save, if any, holds all the rows with the folder as it stood |
| TaskConfig.SaveAsWritten | main.py:53-59 | save_config as written yields a document iff there is no row, and then it is the empty task list with the folder |
| TaskConfig.SaveLosesEveryTask | main.py:53-59 | with any row, the intended document lists it while save_config as written writes nothing |
| TaskConfig.RoundTrip | main.py:51-86 | loading a saved document gives back its tasks in order, and its folder when non-empty and a directory |
| TaskConfig.FindFrame | main.py:215-216 | the first row with the frame, or none when no row has it |
| TaskConfig.RemoveFirst | main.py:212-219 | the rows are unchanged iff no row has the frame; otherwise exactly one row goes |
| TaskConfig.RemoveFirstSpec | main.py:212-219 | delete removes exactly the first row with the frame and keeps the rest in order, or changes nothing |
| TaskConfig.RemoveDistinct | main.py:212-219 | with distinct frames, deleting a frame leaves frames distinct and none equal to it |
| TaskConfig.StartupDocument | main.py:76-86 | the last save of the restore loop with save_config corrected and the folder still unset (the folder restore writes nothing): a file is written iff a task is restored, and it holds exactly the restored tasks and a null folder |
| TaskConfig.StartupForgetsFolder | main.py:76-86 | with save_config corrected and load_config's order kept, a saved folder with one task is restored at start-up, yet the file then written no longer holds it |
| TaskConfig.StartupFixedIsStable | main.py:53-86 | with both corrections (every row saved, folder restored before the restore loop) the start-up file holds exactly the restored tasks and folder and a second start-up restores the same; the same rows through save_config as written are not saved |
| App.TimerApp.constructor | main.py:29-44 | the initial timer state, an empty stopped playlist, no folder, no tasks with the first frame still to issue, nothing saved |
| App.TimerApp.FinishTimer | main.py:398-412 | the state is Timer.Finish of the old state |
| App.TimerApp.UpdateTimer | main.py:370-376 | the state is Timer.Update of the old state, and the label shows the count |
| App.TimerApp.Tick | main.py:370-376 | the state is Timer.Tick of the old state, and the label shows the count |
| App.TimerApp.StartTimer | main.py:364-368 | the state is Timer.Start of the old state |
| App.TimerApp.PauseTimer | main.py:378-379 | the state is Timer.Pause of the old state |
| App.TimerApp.ResumeTimer | main.py:381-382 | the state is Timer.Resume of the old state |
| App.TimerApp.ResetTimer | main.py:384-388 | the state is Timer.Reset of the old state, and the label shows the count |
| App.TimerApp.EditTime | main.py:390-396 | the state is Timer.EditTime of the old state; on cancel the label is untouched |
| App.TimerApp.LoadPlaylist | main.py:230-271 | the entries are one fresh entry per audio name of the listing, or none without an existing folder; the row labels are their display names |
| App.TimerApp.ChooseFolder | main.py:223-228 | a cancelled dialog changes nothing; otherwise the folder is set and the list reloaded, and the save writes the empty task list with the new folder when there is no task, and nothing otherwise |
| App.TimerApp.OnVolumeChange | main.py:275-278 | only that entry's volume changes, to the slider value; the live sound follows only when decoded |
| App.TimerApp.SetLoop | main.py:253-255 | only that entry's loop flag changes |
| App.TimerApp.StopPlaylist | main.py:288-293 | the state is Playlist.Stop of the old state |
| App.TimerApp.PlayCurrent | main.py:295-319 | the state is Playlist.PlayCurrent of the old state |
| App.TimerApp.NextTrack | main.py:321-330 | the state is Playlist.NextTrack of the old state |
| App.TimerApp.PlayPlaylist | main.py:280-286 | the state is Playlist.PlayPlaylist of the old state |
| App.TimerApp.NextTrackManual | main.py:332-337 | the state is Playlist.NextTrackManual of the old state |
| App.TimerApp.PreviousTrack | main.py:339-344 | the state is Playlist.PreviousTrack of the old state |
| App.TimerApp.CheckPlaylistEnd | main.py:346-349 | the state is Playlist.Poll of the old state |
| App.TimerApp.SaveConfig | main.py:51-59 | save_config as written: it writes the empty task list with the folder iff there is no row; with a row it raises and the file keeps its old content |
| App.TimerApp.AddTask | main.py:183-210 | exactly one row is appended under a new frame (text "" and unchecked by default), frames stay distinct, and the save that follows raises, so nothing is written |
| App.TimerApp.DeleteTask | main.py:212-220 | the first row with the frame is removed, or nothing; no row keeps the frame; the save writes the empty list iff no row is left and raises otherwise |
| App.TimerApp.EditTask | main.py:188-197 | only that row's task changes, and the save it triggers raises, so nothing is written |
| App.TimerApp.RestoreTasks | main.py:78-80 | with no task object nothing changes; otherwise the first task is appended under the next frame, one frame is used up, its save raises and the loop ends there; nothing is written |
| App.StartupWithSavedTask | main.py:29-86 | a file with one task and a folder: start-up ends after one row with the folder not restored and nothing written, so the next start-up ends the same way |
| App.TimerApp.LoadConfig | main.py:66-86 | nothing is ever written; without a file nothing changes; with a task in the file one row is appended under the next frame and it stops, folder and list untouched; with no task the folder and list are restored when the folder is a directory |

## Left out

- Tk widgets, layout, canvas scrolling, the current-song label, the row frames and the finish modal are not modelled. They are presentation only. A task row's frame is reduced to a number that identifies it.
- The pygame mixer is not modelled (`Sound`, `play`, `stop`, `set_volume`, `get_busy`, and `mixer.music` with `finish.mp3`). Decode failures and the busy flag are inputs. A channel is the record of what was last started on it.
- App.TimerApp.FinishTimer: it always ends the run. In the source, `running = False` is the last line of `finish_timer`, after `mixer.music.load("finish.mp3")` and after the modal is built. If the load raises (the file is looked up relative to the working directory), the timer stays running at zero with no callback left, and `start_timer` then does nothing until a reset or an edit. That failure path is not modelled.
- `stop_sound` is not modelled. It only stops the finish sound and closes the modal.
- `Sound.play` returning no channel is not modelled: a started entry always has a channel.
- The per-entry `item["channel"]` is not modelled. It is written and never read.
- Volumes are whole percentages, of the type `Percent` (0 to 100). The float conversion `value / 100.0` is left out, and so is the slider's float value.
- App.TimerApp.OnVolumeChange: in the source the slider widget writes the volume and the callback only forwards it to a decoded sound. The model folds both into one method, clamped by `SliderValue`.
- File and OS access is not modelled: `get_config_path`, `os.makedirs`, `open`, `json.dump` and `json.load`, `os.path.exists`, `os.path.isdir`, `Path.exists` and `Path.iterdir`. Their results are parameters, and a write that raises is not modelled.
- Tk's report of an exception raised in a callback (the traceback it prints) is not modelled. The state is the one at the point of the raise, and the program goes on.
- The end of the program when `load_config` raises during start-up is not modelled beyond the `false` result of `App.TimerApp.LoadConfig`: the state it leaves is never used.
- The JSON layer is left out. A document whose top level is not an object, or whose values have the wrong types, is not modelled. A null or missing folder is the same as none.
- `str(Path(...))` normalisation of folder paths is not modelled: a path is kept as the string given.
- The timing of `root.after` is left out. Ticks and polls are explicit calls. The poll's rescheduling of itself is left out, and so is the constructor's first poll.
- Library.Lower: only ASCII letters are lower-cased. No audio extension holds a non-ASCII letter.
- Library.Suffix: a name that ends in a dot gets no suffix. Some newer pathlib releases differ here, but a suffix of "." is not an audio extension either way, so the filter is the same.
- The "No se encontraron archivos de audio" label for an empty folder is not modelled. It changes no state.

## Findings

| source | as written | input that shows it | evidently intended | confidence | as-written member | corrected member |
|---|---|---|---|---|---|---|
| main.py:53-59 | the comprehension unpacks each row dict into `(var, entry, frame)`, which binds its keys, so `entry.get()` is called on the string `"var"` and raises outside the `try` | a fresh app and one click on "+ Agregar Task": the row is added, save_config raises and the file is not written | write every row's text and checked flag (unpack `item["var"]`, `item["entry"]`) | not executed | TaskConfig.SaveLosesEveryTask | TaskConfig.RoundTrip |
| main.py:78-86 | load_config restores each task through add_task, whose save raises (row above); since save_config as written never writes a task, a file holding one comes only from an earlier version of the program or a hand edit; nothing catches it in load_config or `__init__`, so start-up ends after the first row and before the folder is restored. Hidden behind this is a second defect: once the save is corrected, add_task saves while `audio_folder` is still None and the folder restore saves nothing, so the file gets a null folder (TaskConfig.StartupForgetsFolder) | a file with one task `{"text": "a", "checked": false}` and `"audio_folder": "/music"`, a directory: start-up ends with the exception and the file keeps its content, so every start-up fails | start-up restores every task and the folder, and the file it writes restores the same again: correct save_config and restore the folder before the tasks | not executed | App.StartupWithSavedTask | TaskConfig.StartupFixedIsStable |
