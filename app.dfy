/**
 * The application object with the widgets and the audio calls taken out:
 * the timer fields, the playlist fields, the task rows and the last
 * document written to the configuration file.  Each method follows the
 * source's steps and is proved against the value-level state machines of the
 * Timer, Playlist and TaskConfig modules; its `modifies` clause names the
 * fields it may change, so every other field is left as it was.  An exception
 * raised by save_config is a `false` result: the method stops there, as the
 * Python call does, and its caller stops in turn.
 */
module App {
  import opened Wrappers
  import opened TimeFormat
  import Timer
  import opened Library
  import Playlist
  import opened TaskConfig

  class TimerApp {
    // countdown timer
    var totalSeconds: nat
    var remainingSeconds: nat
    var running: bool
    var paused: bool
    var pendingTicks: nat      // update_timer callbacks scheduled with root.after
    var completions: nat       // finish_timer calls (sound and modal)
    var timeLabel: string      // the text of the timer label

    // playlist
    var audioFolder: Option<string>
    var items: seq<Item>
    var currentIndex: nat
    var playing: bool
    var channel: Option<Playlist.Playback>

    // tasks and persistence
    var rows: seq<TaskRow>
    var nextFrame: nat         // identity of the next task frame created
    ghost var lastSaved: Option<Document>  // the document last written, None before any write

    ghost function TimerView(): Timer.TimerState
      reads this`totalSeconds, this`remainingSeconds, this`running, this`paused,
        this`pendingTicks, this`completions
    {
      Timer.TimerState(totalSeconds, remainingSeconds, running, paused, pendingTicks, completions)
    }

    ghost function PlayerView(): Playlist.PlayerState
      reads this`items, this`currentIndex, this`playing, this`channel
    {
      Playlist.PlayerState(items, currentIndex, playing, channel)
    }

    /** The count never exceeds the set time, which is at least a minute, and the label shows the count. */
    ghost predicate TimerValid()
      reads this`totalSeconds, this`remainingSeconds, this`timeLabel
    {
      60 <= totalSeconds && remainingSeconds <= totalSeconds && timeLabel == FormatTime(remainingSeconds)
    }

    /** Every task row has its own frame, and each frame was issued before. */
    ghost predicate TasksValid()
      reads this`rows, this`nextFrame
    {
      DistinctFrames(rows) && forall k :: 0 <= k < |rows| ==> rows[k].frame < nextFrame
    }

    /** The state __init__ sets up before loading the configuration. */
    constructor ()
      ensures TimerValid() && TasksValid()
      ensures TimerView() == Timer.Initial()
      ensures PlayerView() == Playlist.PlayerState([], 0, false, None) && audioFolder.None?
      ensures rows == [] && nextFrame == 0 && lastSaved.None?
    {
      totalSeconds := Timer.DefaultTotal;
      remainingSeconds := Timer.DefaultTotal;
      running, paused := false, false;
      pendingTicks, completions := 0, 0;
      timeLabel := FormatTime(Timer.DefaultTotal);
      audioFolder := None;
      items := [];
      currentIndex := 0;
      playing := false;
      channel := None;
      rows := [];
      nextFrame := 0;
      lastSaved := None;
    }

    // ---------- timer ----------

    /** finish_timer, without the sound and the modal: the run ends once. */
    method FinishTimer()
      requires TimerValid()
      modifies this`running, this`completions
      ensures TimerValid()
      ensures TimerView() == Timer.Finish(old(TimerView()))
    {
      completions := completions + 1;
      running := false;
    }

    /** update_timer: decrement, relabel and reschedule, or finish when the count is spent. */
    method UpdateTimer()
      requires TimerValid()
      modifies this`remainingSeconds, this`pendingTicks, this`running, this`completions, this`timeLabel
      ensures TimerValid()
      ensures TimerView() == Timer.Update(old(TimerView()))
    {
      if running && !paused && remainingSeconds > 0 {
        remainingSeconds := remainingSeconds - 1;
        timeLabel := FormatTime(remainingSeconds);
        pendingTicks := pendingTicks + 1;
      } else if remainingSeconds == 0 && running {
        FinishTimer();
      }
    }

    /** The event loop fires one scheduled update_timer callback, if any is scheduled. */
    method Tick()
      requires TimerValid()
      modifies this`remainingSeconds, this`pendingTicks, this`running, this`completions, this`timeLabel
      ensures TimerValid()
      ensures TimerView() == Timer.Tick(old(TimerView()))
    {
      if pendingTicks > 0 {
        pendingTicks := pendingTicks - 1;
        UpdateTimer();
      }
    }

    /** start_timer. */
    method StartTimer()
      requires TimerValid()
      modifies this`remainingSeconds, this`pendingTicks, this`running, this`paused, this`completions,
        this`timeLabel
      ensures TimerValid()
      ensures TimerView() == Timer.Start(old(TimerView()))
    {
      if !running {
        running := true;
        paused := false;
        UpdateTimer();
      }
    }

    /** pause_timer. */
    method PauseTimer()
      modifies this`paused
      ensures TimerView() == Timer.Pause(old(TimerView()))
    {
      paused := true;
    }

    /** resume_timer. */
    method ResumeTimer()
      modifies this`paused
      ensures TimerView() == Timer.Resume(old(TimerView()))
    {
      paused := false;
    }

    /** reset_timer. */
    method ResetTimer()
      requires TimerValid()
      modifies this`running, this`paused, this`remainingSeconds, this`timeLabel
      ensures TimerValid()
      ensures TimerView() == Timer.Reset(old(TimerView()))
    {
      running := false;
      paused := false;
      remainingSeconds := totalSeconds;
      timeLabel := FormatTime(remainingSeconds);
    }

    /** edit_time; `minutes` is the dialog's answer (None on cancel, otherwise at least 1). */
    method EditTime(minutes: Option<int>)
      requires TimerValid()
      requires minutes.Some? ==> minutes.value >= 1
      modifies this`running, this`totalSeconds, this`remainingSeconds, this`timeLabel
      ensures TimerValid()
      ensures TimerView() == Timer.EditTime(old(TimerView()), minutes)
      ensures minutes.None? ==> timeLabel == old(timeLabel)
    {
      running := false;
      if minutes.Some? {
        totalSeconds := minutes.value * 60;
        remainingSeconds := totalSeconds;
        timeLabel := FormatTime(remainingSeconds);
      }
    }

    // ---------- playlist ----------

    /** load_playlist: rebuild the entries from the folder listing; the cursor is not touched. */
    method LoadPlaylist(folderExists: bool, names: seq<string>) returns (labels: seq<string>)
      modifies this`items
      ensures items == if audioFolder.Some? && folderExists then Entries(names) else []
      ensures labels == Labels(items)
    {
      items := [];
      labels := [];
      if audioFolder.None? || !folderExists {
        return;
      }
      var files := AudioFiles(names);
      ghost var all := Entries(names);
      var i := 0;
      while i < |files|
        invariant 0 <= i <= |files| == |all|
        invariant items == all[..i]
        invariant labels == Labels(all)[..i]
      {
        EntryAt(names, i);
        PrefixSnoc(all, i);
        PrefixSnoc(Labels(all), i);
        items := items + [NewItem(files[i])];
        labels := labels + [DisplayName(files[i])];
        i := i + 1;
      }
      EntriesWhole(names);
    }

    /** choose_folder; `answer` is the dialog's answer, empty when cancelled. */
    method ChooseFolder(answer: string, folderExists: bool, names: seq<string>)
      modifies this`audioFolder, this`items, this`lastSaved
      ensures answer == "" ==> audioFolder == old(audioFolder) && items == old(items) && lastSaved == old(lastSaved)
      ensures answer != "" ==>
        && audioFolder == Some(answer)
        && items == (if folderExists then Entries(names) else [])
        && lastSaved == if rows == [] then Some(Document([], audioFolder)) else old(lastSaved)
    {
      if answer != "" {
        audioFolder := Some(answer);
        var _ := LoadPlaylist(folderExists, names);
        var _ := SaveConfig();
      }
    }

    /** The slider of entry `index` moved to `value`; the live sound follows only when decoded. */
    method OnVolumeChange(index: nat, value: int) returns (applied: bool)
      requires index < |items|
      modifies this`items
      ensures items == old(items)[index := old(items)[index].(volume := SliderValue(value))]
      ensures applied == items[index].loaded
    {
      items := items[index := items[index].(volume := SliderValue(value))];
      applied := items[index].loaded;
    }

    /** The loop checkbox of entry `index`; it takes effect the next time the entry starts. */
    method SetLoop(index: nat, loop: bool)
      requires index < |items|
      modifies this`items
      ensures items == old(items)[index := old(items)[index].(loop := loop)]
    {
      items := items[index := items[index].(loop := loop)];
    }

    /** stop_playlist. */
    method StopPlaylist()
      modifies this`playing, this`channel
      ensures PlayerView() == Playlist.Stop(old(PlayerView()))
    {
      playing := false;
      if channel.Some? {
        channel := None;
      }
    }

    /** play_current; `fails` holds the entries whose file cannot be decoded. */
    method PlayCurrent(fails: set<nat>)
      modifies this`items, this`currentIndex, this`playing, this`channel
      ensures PlayerView() == Playlist.PlayCurrent(old(PlayerView()), fails)
      decreases Playlist.Left(PlayerView()), 2
    {
      if !playing || currentIndex >= |items| {
        playing := false;
        return;
      }
      if !items[currentIndex].loaded {
        if currentIndex in fails {
          NextTrack(fails);
          return;
        }
        items := items[currentIndex := items[currentIndex].(loaded := true)];
      }
      channel := Some(Playlist.Start(items, currentIndex));
    }

    /** next_track. */
    method NextTrack(fails: set<nat>)
      modifies this`items, this`currentIndex, this`playing, this`channel
      ensures PlayerView() == Playlist.NextTrack(old(PlayerView()), fails)
      decreases Playlist.Left(PlayerView()), 1
    {
      if !playing {
        return;
      }
      currentIndex := currentIndex + 1;
      if currentIndex < |items| {
        PlayCurrent(fails);
      } else {
        playing := false;
        channel := None;
      }
    }

    /** play_playlist. */
    method PlayPlaylist(fails: set<nat>)
      modifies this`items, this`currentIndex, this`playing, this`channel
      ensures PlayerView() == Playlist.PlayPlaylist(old(PlayerView()), fails)
    {
      if items == [] {
        return;
      }
      StopPlaylist();
      playing := true;
      currentIndex := 0;
      PlayCurrent(fails);
    }

    /** next_track_manual. */
    method NextTrackManual(fails: set<nat>)
      modifies this`items, this`currentIndex, this`playing, this`channel
      ensures PlayerView() == Playlist.NextTrackManual(old(PlayerView()), fails)
    {
      if !playing || items == [] {
        return;
      }
      if currentIndex < |items| - 1 {
        currentIndex := currentIndex + 1;
        PlayCurrent(fails);
      }
    }

    /** previous_track. */
    method PreviousTrack(fails: set<nat>)
      modifies this`items, this`currentIndex, this`playing, this`channel
      ensures PlayerView() == Playlist.PreviousTrack(old(PlayerView()), fails)
    {
      if !playing || items == [] {
        return;
      }
      if currentIndex > 0 {
        currentIndex := currentIndex - 1;
        PlayCurrent(fails);
      }
    }

    /** One check_playlist_end poll; `busy` is the channel's answer to get_busy. */
    method CheckPlaylistEnd(busy: bool, fails: set<nat>)
      modifies this`items, this`currentIndex, this`playing, this`channel
      ensures PlayerView() == Playlist.Poll(old(PlayerView()), busy, fails)
    {
      if playing && channel.Some? {
        if !busy {
          NextTrack(fails);
        }
      }
    }

    // ---------- tasks and persistence ----------

    /**
     * save_config as written (TaskConfig.SaveAsWritten): with any row the
     * comprehension raises and nothing is written; `saved` is false then.
     */
    method SaveConfig() returns (saved: bool)
      modifies this`lastSaved
      ensures saved <==> rows == []
      ensures saved ==> lastSaved == Some(Document([], audioFolder))
      ensures !saved ==> lastSaved == old(lastSaved)
    {
      var doc := SaveAsWritten(rows, audioFolder);
      if doc.Some? {
        lastSaved := doc;
      }
      saved := doc.Some?;
    }

    /**
     * add_task: one new row at the end, under a new frame, then a save.  The
     * row exists by then, so the save raises: the row stays and the file is
     * not written.
     */
    method AddTask(text: string := "", checked: bool := false) returns (saved: bool)
      requires TasksValid()
      modifies this`rows, this`nextFrame, this`lastSaved
      ensures TasksValid()
      ensures rows == old(rows) + [TaskRow(old(nextFrame), Task(text, checked))]
      ensures nextFrame == old(nextFrame) + 1
      ensures TasksOf(rows) == TasksOf(old(rows)) + [Task(text, checked)]
      ensures !saved && lastSaved == old(lastSaved)
    {
      rows := rows + [TaskRow(nextFrame, Task(text, checked))];
      nextFrame := nextFrame + 1;
      saved := SaveConfig();
    }

    /**
     * delete_task: search for the frame, delete the first match if any, then
     * save; the save goes through only when no row is left.
     */
    method DeleteTask(frame: nat) returns (saved: bool)
      requires TasksValid()
      modifies this`rows, this`lastSaved
      ensures TasksValid()
      ensures rows == RemoveFirst(old(rows), frame)
      ensures forall k :: 0 <= k < |rows| ==> rows[k].frame != frame
      ensures saved <==> rows == []
      ensures lastSaved == if saved then Some(Document([], audioFolder)) else old(lastSaved)
    {
      RemoveDistinct(rows, frame);
      var i := 0;
      while i < |rows| && rows[i].frame != frame
        invariant 0 <= i <= |rows|
        invariant forall k :: 0 <= k < i ==> rows[k].frame != frame
      {
        i := i + 1;
      }
      if i < |rows| {
        assert FindFrame(rows, frame) == Some(i);
        rows := rows[..i] + rows[i + 1..];
      }
      saved := SaveConfig();
    }

    /**
     * A keystroke in a task's entry or a click on its checkbox, followed by
     * the save it triggers, which raises because the row exists.
     */
    method EditTask(index: nat, task: Task) returns (saved: bool)
      requires TasksValid()
      requires index < |rows|
      modifies this`rows, this`lastSaved
      ensures TasksValid()
      ensures rows == old(rows)[index := old(rows)[index].(task := task)]
      ensures !saved && lastSaved == old(lastSaved)
    {
      rows := rows[index := rows[index].(task := task)];
      saved := SaveConfig();
    }

    /**
     * load_config's loop: one add_task per task object, in order.  The first
     * add_task's save raises, which ends the loop and the caller; `completed`
     * is false then, and exactly one row has been added.
     */
    method RestoreTasks(raws: seq<RawTask>) returns (completed: bool)
      requires TasksValid()
      modifies this`rows, this`nextFrame, this`lastSaved
      ensures TasksValid()
      ensures completed <==> raws == []
      ensures rows == old(rows) + if raws == [] then [] else [TaskRow(old(nextFrame), RestoreTask(raws[0]))]
      ensures nextFrame == old(nextFrame) + if raws == [] then 0 else 1
      ensures lastSaved == old(lastSaved)
    {
      completed := true;
      var i := 0;
      while i < |raws| && completed
        invariant 0 <= i <= |raws|
        invariant TasksValid()
        invariant completed <==> i == 0
        invariant i <= 1
        invariant nextFrame == old(nextFrame) + i
        invariant rows == old(rows) + if i == 0 then [] else [TaskRow(old(nextFrame), RestoreTask(raws[0]))]
        invariant lastSaved == old(lastSaved)
      {
        var t := RestoreTask(raws[i]);
        completed := AddTask(t.text, t.checked);
        i := i + 1;
      }
    }

    /**
     * load_config: `raw` is the parsed file, None when it is missing or
     * unreadable; `isDir` says whether the saved folder is a directory and
     * `names` is its listing.  With a task in the file the first add_task's
     * save raises, so the folder is never restored and `completed` is false;
     * at start-up that exception ends the program.
     */
    method LoadConfig(raw: Option<RawDocument>, isDir: bool, names: seq<string>) returns (completed: bool)
      requires TasksValid()
      modifies this`rows, this`nextFrame, this`lastSaved, this`audioFolder, this`items
      ensures TasksValid()
      ensures |rows| >= |old(rows)| && rows[..|old(rows)|] == old(rows)
      ensures lastSaved == old(lastSaved)
      ensures completed <==> raw.None? || RestoredTasks(raw.value) == []
      ensures nextFrame == old(nextFrame) + if completed then 0 else 1
      ensures raw.None? ==>
        rows == old(rows) && audioFolder == old(audioFolder) && items == old(items)
      ensures raw.Some? && RestoredTasks(raw.value) != [] ==>
        && rows == old(rows) + [TaskRow(old(nextFrame), RestoredTasks(raw.value)[0])]
        && audioFolder == old(audioFolder) && items == old(items)
      ensures raw.Some? && RestoredTasks(raw.value) == [] ==>
        var folder := RestoredFolder(raw.value, isDir);
        && rows == old(rows)
        && audioFolder == (if folder.Some? then folder else old(audioFolder))
        && items == (if folder.Some? then Entries(names) else old(items))
    {
      if raw.None? {
        return true;
      }
      var raws := RawTasks(raw.value);
      completed := RestoreTasks(raws);
      if !completed {
        return;
      }
      var folder := RestoredFolder(raw.value, isDir);
      if folder.Some? {
        audioFolder := folder;
        var _ := LoadPlaylist(true, names);
      }
    }
  }

  /**
   * Start-up with a file holding one task and a folder that is a directory:
   * __init__ sets up the state and load_config ends with the exception from
   * the first add_task's save.  One row was added, the folder was not
   * restored and nothing was written, so the file is unchanged and every
   * later start-up ends the same way.
   */
  method StartupWithSavedTask() returns (app: TimerApp, completed: bool)
    ensures !completed
    ensures app.rows == [TaskRow(0, Task("a", false))]
    ensures app.audioFolder.None? && app.items == [] && app.lastSaved.None?
  {
    app := new TimerApp();
    var raw := RawDocument(Some([RawTask(Some("a"), Some(false))]), Some("/music"));
    assert RestoredTasks(raw) == [Task("a", false)];
    completed := app.LoadConfig(Some(raw), true, ["song.mp3"]);
  }
}
