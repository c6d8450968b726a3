/**
 * The task list and the persisted configuration document.  A task row is
 * known by its frame widget; the document is what save_config dumps, and
 * `RawDocument` is what load_config finds after json.load, where any key
 * may be missing.
 */
module TaskConfig {
  import opened Wrappers

  datatype Task = Task(text: string, checked: bool)

  /** A row of the task list: the identity of its frame widget, and the task it shows. */
  datatype TaskRow = TaskRow(frame: nat, task: Task)

  /** The saved document: the tasks in display order and the audio folder, or null. */
  datatype Document = Document(tasks: seq<Task>, audioFolder: Option<string>)

  /** A task object as read back; a missing key is None. */
  datatype RawTask = RawTask(text: Option<string>, checked: Option<bool>)

  /** The top-level object as read back; a missing "tasks" key is None, as is a null or missing folder. */
  datatype RawDocument = RawDocument(tasks: Option<seq<RawTask>>, audioFolder: Option<string>)

  /** The tasks of the rows, in order. */
  function TasksOf(rows: seq<TaskRow>): (ts: seq<Task>)
    ensures |ts| == |rows|
    ensures forall k :: 0 <= k < |rows| ==> ts[k] == rows[k].task
  {
    seq(|rows|, k requires 0 <= k < |rows| => rows[k].task)
  }

  /** The document save_config is meant to write: every row's task, in order, and the folder. */
  function Save(rows: seq<TaskRow>, folder: Option<string>): (d: Document)
    ensures |d.tasks| == |rows| && forall k :: 0 <= k < |rows| ==> d.tasks[k] == rows[k].task
    ensures d.audioFolder == folder
  {
    Document(TasksOf(rows), folder)
  }

  /**
   * save_config as written.  The comprehension unpacks each row, a dict with
   * the keys "frame", "var" and "entry", into `(var, entry, frame)`; that binds
   * the keys, so `entry` is the string "var" and `entry.get()` raises before
   * the file is opened and outside the `try`.  A document is written only when
   * there is no row; None means the call raised and nothing was written.
   */
  function SaveAsWritten(rows: seq<TaskRow>, folder: Option<string>): (d: Option<Document>)
    ensures d.Some? <==> rows == []
    ensures d.Some? ==> d.value == Save(rows, folder) && d.value.tasks == [] && d.value.audioFolder == folder
  {
    if rows == [] then Some(Document([], folder)) else None
  }

  /** Any task row is lost: the intended document lists it, the save as written writes nothing. */
  lemma SaveLosesEveryTask(rows: seq<TaskRow>, folder: Option<string>)
    requires rows != []
    ensures SaveAsWritten(rows, folder).None?
    ensures Save(rows, folder).tasks != [] && Save(rows, folder).tasks[0] == rows[0].task
  {
  }

  /** What json.load returns for a document json.dump wrote: every key present. */
  function Encode(d: Document): (raw: RawDocument)
    ensures raw.tasks.Some? && |raw.tasks.value| == |d.tasks|
    ensures forall k :: 0 <= k < |d.tasks| ==>
      raw.tasks.value[k] == RawTask(Some(d.tasks[k].text), Some(d.tasks[k].checked))
    ensures raw.audioFolder == d.audioFolder
  {
    RawDocument(
      Some(seq(|d.tasks|, k requires 0 <= k < |d.tasks| =>
        RawTask(Some(d.tasks[k].text), Some(d.tasks[k].checked)))),
      d.audioFolder)
  }

  /** `task.get("text", "")` and `task.get("checked", False)`. */
  function RestoreTask(raw: RawTask): (t: Task)
    ensures raw.text.None? ==> t.text == ""
    ensures raw.checked.None? ==> !t.checked
    ensures raw.text.Some? ==> t.text == raw.text.value
    ensures raw.checked.Some? ==> t.checked == raw.checked.value
  {
    Task(
      match raw.text case Some(s) => s case None => "",
      match raw.checked case Some(b) => b case None => false)
  }

  /** The loop over the task objects, one add_task each, in order. */
  function RestoreAll(raws: seq<RawTask>): (ts: seq<Task>)
    ensures |ts| == |raws|
    ensures forall k :: 0 <= k < |raws| ==> ts[k] == RestoreTask(raws[k])
  {
    if raws == [] then [] else [RestoreTask(raws[0])] + RestoreAll(raws[1..])
  }

  /** `config.get("tasks", [])`: the task objects, none when the key is missing. */
  function RawTasks(raw: RawDocument): (raws: seq<RawTask>)
    ensures raw.tasks.Some? ==> raws == raw.tasks.value
    ensures raw.tasks.None? ==> raws == []
  {
    match raw.tasks
    case None => []
    case Some(raws) => raws
  }

  /** The tasks load_config restores, one per task object, in order. */
  function RestoredTasks(raw: RawDocument): seq<Task>
  {
    RestoreAll(RawTasks(raw))
  }

  /** The folder load_config adopts: a non-empty path naming a directory. */
  function RestoredFolder(raw: RawDocument, isDir: bool): (f: Option<string>)
    ensures f.Some? <==> raw.audioFolder.Some? && raw.audioFolder.value != "" && isDir
    ensures f.Some? ==> f == raw.audioFolder
  {
    match raw.audioFolder
    case Some(path) => if path != "" && isDir then Some(path) else None
    case None => None
  }

  /** Restoring one more object appends one more task: the loop's step. */
  lemma {:induction false} RestoreAllSnoc(raws: seq<RawTask>, last: RawTask)
    ensures RestoreAll(raws + [last]) == RestoreAll(raws) + [RestoreTask(last)]
  {
    if raws == [] {
      assert raws + [last] == [last];
    } else {
      assert (raws + [last])[1..] == raws[1..] + [last];
      RestoreAllSnoc(raws[1..], last);
    }
  }

  /**
   * Saving then loading gives back the same tasks in the same order, and the
   * folder when it is non-empty and still a directory.
   */
  lemma RoundTrip(d: Document, isDir: bool)
    ensures RestoredTasks(Encode(d)) == d.tasks
    ensures RestoredFolder(Encode(d), isDir) ==
      if d.audioFolder.Some? && d.audioFolder.value != "" && isDir then d.audioFolder else None
  {
    var raws := Encode(d).tasks.value;
    assert RestoreAll(raws) == d.tasks;
  }

  /** The position of the first row with this frame, if any. */
  function FindFrame(rows: seq<TaskRow>, frame: nat): (i: Option<nat>)
    ensures i.Some? ==> i.value < |rows| && rows[i.value].frame == frame
    ensures i.Some? ==> forall k :: 0 <= k < i.value ==> rows[k].frame != frame
    ensures i.None? ==> forall k :: 0 <= k < |rows| ==> rows[k].frame != frame
  {
    if rows == [] then None
    else if rows[0].frame == frame then Some(0)
    else match FindFrame(rows[1..], frame)
      case None => None
      case Some(j) => Some(j + 1)
  }

  /** delete_task's effect on the rows: drop the first row with the frame, if there is one. */
  function RemoveFirst(rows: seq<TaskRow>, frame: nat): (r: seq<TaskRow>)
    ensures (forall k :: 0 <= k < |rows| ==> rows[k].frame != frame) <==> r == rows
    ensures r != rows ==> |r| == |rows| - 1
  {
    match FindFrame(rows, frame)
    case None => rows
    case Some(i) => rows[..i] + rows[i + 1..]
  }

  /** Deleting removes exactly one row, the first match, and keeps the others in order. */
  lemma RemoveFirstSpec(rows: seq<TaskRow>, frame: nat)
    ensures (forall k :: 0 <= k < |rows| ==> rows[k].frame != frame) ==> RemoveFirst(rows, frame) == rows
    ensures forall i ::
      (0 <= i < |rows| && rows[i].frame == frame && forall k :: 0 <= k < i ==> rows[k].frame != frame) ==>
        RemoveFirst(rows, frame) == rows[..i] + rows[i + 1..] && |RemoveFirst(rows, frame)| == |rows| - 1
  {
  }

  /** Frames are distinct: then deleting a frame leaves no row with it. */
  predicate DistinctFrames(rows: seq<TaskRow>)
  {
    forall i, j :: 0 <= i < j < |rows| ==> rows[i].frame != rows[j].frame
  }

  lemma RemoveDistinct(rows: seq<TaskRow>, frame: nat)
    requires DistinctFrames(rows)
    ensures var r := RemoveFirst(rows, frame);
      DistinctFrames(r) && forall k :: 0 <= k < |r| ==> r[k].frame != frame
  {
    var r := RemoveFirst(rows, frame);
    match FindFrame(rows, frame)
    case None =>
    case Some(i) =>
      assert forall k :: 0 <= k < |r| ==> r[k] == if k < i then rows[k] else rows[k + 1];
  }

  /**
   * load_config's loop at start-up with save_config corrected: each task
   * object becomes a row under the next frame, and add_task then saves the
   * rows with the folder as it stands.  Yields the rows and the last
   * document written (`saved` when the loop writes nothing).
   */
  function RestoreSaving(rows: seq<TaskRow>, raws: seq<RawTask>, next: nat, folder: Option<string>,
                         saved: Option<Document>): (seq<TaskRow>, Option<Document>)
    decreases |raws|
  {
    if raws == [] then (rows, saved)
    else
      var grown := rows + [TaskRow(next, RestoreTask(raws[0]))];
      RestoreSaving(grown, raws[1..], next + 1, folder, Some(Save(grown, folder)))
  }

  /** One more row adds its task at the end. */
  lemma TasksOfSnoc(rows: seq<TaskRow>, row: TaskRow)
    ensures TasksOf(rows + [row]) == TasksOf(rows) + [row.task]
  {
    assert forall k :: 0 <= k < |rows| ==> (rows + [row])[k] == rows[k];
  }

  /** The loop appends one restored task per object, and its last save holds all the rows. */
  lemma {:induction false} RestoreSavingSpec(rows: seq<TaskRow>, raws: seq<RawTask>, next: nat,
                                             folder: Option<string>, saved: Option<Document>)
    ensures TasksOf(RestoreSaving(rows, raws, next, folder, saved).0) == TasksOf(rows) + RestoreAll(raws)
    ensures raws == [] ==> RestoreSaving(rows, raws, next, folder, saved).1 == saved
    ensures raws != [] ==>
      RestoreSaving(rows, raws, next, folder, saved).1 == Some(Save(RestoreSaving(rows, raws, next, folder, saved).0, folder))
    decreases |raws|
  {
    if raws != [] {
      var t := RestoreTask(raws[0]);
      var grown := rows + [TaskRow(next, t)];
      assert RestoreSaving(rows, raws, next, folder, saved) ==
        RestoreSaving(grown, raws[1..], next + 1, folder, Some(Save(grown, folder)));
      RestoreSavingSpec(grown, raws[1..], next + 1, folder, Some(Save(grown, folder)));
      TasksOfSnoc(rows, TaskRow(next, t));
      assert RestoreAll(raws) == [t] + RestoreAll(raws[1..]);
      assert TasksOf(rows) + [t] + RestoreAll(raws[1..]) == TasksOf(rows) + ([t] + RestoreAll(raws[1..]));
    }
  }

  /**
   * The document on disk after a start-up once save_config is corrected but
   * load_config keeps its order: the last save of the loop at main.py:79-80,
   * taken while the folder is still unset; restoring the folder afterwards
   * writes nothing.  None when nothing was written.  As written, start-up
   * never gets this far with a task in the file (see App.StartupWithSavedTask).
   */
  function StartupDocument(raw: RawDocument): (d: Option<Document>)
    ensures d.Some? <==> RestoredTasks(raw) != []
    ensures d.Some? ==> d.value.tasks == RestoredTasks(raw) && d.value.audioFolder.None?
  {
    RestoreSavingSpec([], RawTasks(raw), 0, None, None);
    RestoreSaving([], RawTasks(raw), 0, None, None).1
  }

  /** With only save_config corrected, a saved folder with one saved task is gone from the file after a start-up. */
  lemma StartupForgetsFolder()
    ensures var raw := RawDocument(Some([RawTask(Some("a"), Some(false))]), Some("/music"));
      && RestoredFolder(raw, true) == Some("/music")
      && StartupDocument(raw).Some?
      && RestoredFolder(Encode(StartupDocument(raw).value), true).None?
  {
    var raw := RawDocument(Some([RawTask(Some("a"), Some(false))]), Some("/music"));
    assert RestoredTasks(raw) == [Task("a", false)];
  }

  /**
   * The start-up document with both defects corrected: save_config writes
   * every row (`Save`), and load_config restores the folder before the
   * tasks, so each save of the loop carries it.
   */
  function StartupDocumentFixed(raw: RawDocument, isDir: bool): Option<Document>
  {
    RestoreSaving([], RawTasks(raw), 0, RestoredFolder(raw, isDir), None).1
  }

  /**
   * With both corrections the file written at start-up holds exactly the
   * restored tasks and folder, and a second start-up restores the same.  The
   * reordering alone is not enough: the same rows through save_config as
   * written are not saved at all.
   */
  lemma StartupFixedIsStable(raw: RawDocument, isDir: bool)
    requires RestoredTasks(raw) != []
    ensures StartupDocumentFixed(raw, isDir).Some?
    ensures var d := StartupDocumentFixed(raw, isDir).value;
      && d.tasks == RestoredTasks(raw) && d.audioFolder == RestoredFolder(raw, isDir)
      && RestoredTasks(Encode(d)) == RestoredTasks(raw)
      && RestoredFolder(Encode(d), isDir) == RestoredFolder(raw, isDir)
    ensures SaveAsWritten(RestoreSaving([], RawTasks(raw), 0, RestoredFolder(raw, isDir), None).0,
                          RestoredFolder(raw, isDir)).None?
  {
    var folder := RestoredFolder(raw, isDir);
    RestoreSavingSpec([], RawTasks(raw), 0, folder, None);
    RoundTrip(StartupDocumentFixed(raw, isDir).value, isDir);
  }
}
