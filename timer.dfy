/**
 * The countdown timer as a state machine over values.  The repeating
 * `root.after(1000, update_timer)` is made explicit: `pending` counts the
 * callbacks the event loop still holds, and a tick fires one of them.
 * `completions` counts the finish signals (sound and modal) emitted so far.
 */
module Timer {
  import opened Wrappers

  datatype TimerState = TimerState(
    total: nat,        // total_seconds
    remaining: nat,    // remaining_seconds
    running: bool,
    paused: bool,
    pending: nat,      // scheduled update_timer callbacks not yet fired
    completions: nat)  // finish_timer calls so far

  /** 25 minutes, the value set at start-up. */
  const DefaultTotal: nat := 25 * 60

  function Initial(): (t: TimerState)
    ensures Valid(t) && t.total == 25 * 60 && t.remaining == t.total
    ensures !t.running && !t.paused && t.pending == 0 && t.completions == 0
  {
    TimerState(DefaultTotal, DefaultTotal, false, false, 0, 0)
  }

  /** At least one minute is set, and the countdown never exceeds it. */
  predicate Valid(t: TimerState)
  {
    60 <= t.total && t.remaining <= t.total
  }

  /** The state effect of finish_timer: the run ends and one completion is signalled. */
  function Finish(t: TimerState): (r: TimerState)
    ensures !r.running && r.completions == t.completions + 1
    ensures r.(running := t.running, completions := t.completions) == t
  {
    t.(running := false, completions := t.completions + 1)
  }

  /** The body of update_timer: decrement and reschedule, or finish once the count is spent. */
  function Update(t: TimerState): (r: TimerState)
    ensures r.total == t.total && r.paused == t.paused
    ensures r.remaining < t.remaining <==> t.running && !t.paused && t.remaining > 0
    ensures r.remaining < t.remaining ==> r.remaining == t.remaining - 1 && r.pending == t.pending + 1
    ensures r.remaining == t.remaining ==> r.pending == t.pending
    ensures r.completions > t.completions <==> t.running && t.remaining == 0
    ensures r.running ==> t.running
    ensures Valid(t) ==> Valid(r)
  {
    if t.running && !t.paused && t.remaining > 0 then
      t.(remaining := t.remaining - 1, pending := t.pending + 1)
    else if t.remaining == 0 && t.running then
      Finish(t)
    else
      t
  }

  /** One scheduled callback fires; with none scheduled, nothing happens. */
  function Tick(t: TimerState): (r: TimerState)
    ensures r.total == t.total
    ensures r.remaining <= t.remaining
    ensures r.remaining < t.remaining <==>
      t.pending > 0 && t.running && !t.paused && t.remaining > 0
    ensures r.remaining < t.remaining ==> r.remaining == t.remaining - 1 && r.pending == t.pending
    ensures t.pending > 0 && t.paused && (t.remaining > 0 || !t.running) ==> r == t.(pending := t.pending - 1)
    ensures r.completions > t.completions <==> t.pending > 0 && t.running && t.remaining == 0
    ensures r.completions <= t.completions + 1
    ensures r.completions > t.completions ==> !r.running && r.pending == t.pending - 1
    ensures r.running ==> t.running
    ensures Valid(t) ==> Valid(r)
  {
    if t.pending == 0 then t else Update(t.(pending := t.pending - 1))
  }

  /** `n` callbacks fire one after the other. */
  function Ticks(t: TimerState, n: nat): TimerState
    decreases n
  {
    if n == 0 then t else Ticks(Tick(t), n - 1)
  }

  /** start_timer: a no-op while running; otherwise run, unpause and call update_timer at once. */
  function Start(t: TimerState): (r: TimerState)
    ensures t.running ==> r == t
    ensures !t.running && t.remaining > 0 ==>
      r == t.(running := true, paused := false, remaining := t.remaining - 1, pending := t.pending + 1)
    ensures !t.running && t.remaining == 0 ==> r == t.(paused := false, completions := t.completions + 1)
    ensures Valid(t) ==> Valid(r)
  {
    if t.running then t else Update(t.(running := true, paused := false))
  }

  /** pause_timer: only the paused flag changes, whether or not the timer runs. */
  function Pause(t: TimerState): (r: TimerState)
    ensures r.paused && r.(paused := t.paused) == t
  {
    t.(paused := true)
  }

  /** resume_timer: only the paused flag changes; no callback is scheduled. */
  function Resume(t: TimerState): (r: TimerState)
    ensures !r.paused && r.(paused := t.paused) == t
  {
    t.(paused := false)
  }

  /** reset_timer: stop and refill; scheduled callbacks stay scheduled. */
  function Reset(t: TimerState): (r: TimerState)
    ensures !r.running && !r.paused && r.remaining == r.total == t.total
    ensures r.pending == t.pending && r.completions == t.completions
    ensures Valid(t) ==> Valid(r)
  {
    t.(running := false, paused := false, remaining := t.total)
  }

  /**
   * edit_time: always stops the run; `minutes` is the dialog's answer,
   * None when cancelled and otherwise at least 1 (the dialog's `minvalue`).
   */
  function EditTime(t: TimerState, minutes: Option<int>): (r: TimerState)
    requires minutes.Some? ==> minutes.value >= 1
    ensures !r.running
    ensures minutes.None? ==> r == t.(running := false)
    ensures minutes.Some? ==> r.total == r.remaining == 60 * minutes.value
    ensures r.paused == t.paused && r.pending == t.pending && r.completions == t.completions
    ensures Valid(t) ==> Valid(r)
  {
    var stopped := t.(running := false);
    match minutes
    case None => stopped
    case Some(m) => stopped.(total := m * 60, remaining := m * 60)
  }

  /** Over any number of ticks the count never grows. */
  lemma {:induction false} TicksNeverIncrease(t: TimerState, n: nat)
    ensures Ticks(t, n).remaining <= t.remaining
    ensures Ticks(t, n).total == t.total
    decreases n
  {
    if n > 0 {
      TicksNeverIncrease(Tick(t), n - 1);
    }
  }

  /** While paused with time left the count stays put, and the callbacks drain without replacement. */
  lemma {:induction false} PausedTicksKeepCount(t: TimerState, n: nat)
    requires t.paused && t.remaining > 0
    ensures Ticks(t, n).remaining == t.remaining
    ensures Ticks(t, n).pending == if n <= t.pending then t.pending - n else 0
    ensures Ticks(t, n).completions == t.completions
    decreases n
  {
    if n > 0 && t.pending > 0 {
      PausedTicksKeepCount(Tick(t), n - 1);
    } else if n > 0 {
      assert Tick(t) == t;
      PausedTicksKeepCount(Tick(t), n - 1);
    }
  }

  /** A stopped timer never signals completion, however many callbacks fire. */
  lemma {:induction false} StoppedTicksNeverComplete(t: TimerState, n: nat)
    requires !t.running
    ensures Ticks(t, n) == t.(pending := Ticks(t, n).pending)
    decreases n
  {
    if n > 0 {
      StoppedTicksNeverComplete(Tick(t), n - 1);
    }
  }

  /**
   * At most one completion per run: whatever callbacks are pending (even two
   * chains), the ticks add at most one completion, and none when not running.
   */
  lemma {:induction false} AtMostOneCompletion(t: TimerState, n: nat)
    ensures Ticks(t, n).completions <= t.completions + (if t.running then 1 else 0)
    ensures Ticks(t, n).completions > t.completions ==> !Ticks(t, n).running
    decreases n
  {
    if n > 0 {
      var u := Tick(t);
      AtMostOneCompletion(u, n - 1);
      if u.completions > t.completions {
        StoppedTicksNeverComplete(u, n - 1);
      }
    }
  }

  /**
   * A single running chain with `k` seconds left finishes after exactly
   * k + 1 callbacks: k decrements and then one completion.
   */
  lemma {:induction false} Countdown(t: TimerState)
    requires t.running && !t.paused && t.pending == 1
    ensures Ticks(t, t.remaining + 1) ==
      t.(remaining := 0, running := false, pending := 0, completions := t.completions + 1)
    decreases t.remaining
  {
    if t.remaining > 0 {
      var u := Tick(t);
      assert u == t.(remaining := t.remaining - 1);
      Countdown(u);
    }
  }

  /** One minute set, started, and 60 callbacks later: exactly one completion, and stopped. */
  lemma OneMinuteRun(t: TimerState)
    requires t.pending == 0
    ensures var r := Ticks(Start(EditTime(t, Some(1))), 60);
      !r.running && r.remaining == 0 && r.pending == 0 && r.completions == t.completions + 1
  {
    var s := Start(EditTime(t, Some(1)));
    assert s.remaining == 59 && s.running && !s.paused && s.pending == 1;
    Countdown(s);
  }

  /**
   * Pausing across a callback ends the chain; resume_timer does not start a
   * new one, so the timer shows running and unpaused yet never moves again.
   */
  lemma {:induction false} ResumeAfterPausedTickStalls(t: TimerState, n: nat)
    requires t.running && t.paused && t.remaining > 0 && t.pending == 1
    ensures var u := Resume(Tick(t));
      u.running && !u.paused && u.pending == 0 && Ticks(u, n) == u
    decreases n
  {
    var u := Resume(Tick(t));
    assert u.pending == 0;
    if n > 0 {
      assert Tick(u) == u;
      ResumeAfterPausedTickStalls(t, n - 1);
      assert Ticks(u, n) == Ticks(u, n - 1);
    }
  }

  /**
   * reset_timer then start_timer before the old callback fires leaves two
   * chains, so each second's pair of callbacks takes two seconds off.
   */
  lemma ResetThenStartDoublesChain(t: TimerState)
    requires Valid(t) && t.running && !t.paused && t.pending == 1
    ensures var s := Start(Reset(t));
      s.pending == 2 && s.remaining == t.total - 1 &&
      Ticks(s, 2).pending == 2 && Ticks(s, 2).remaining == t.total - 3
  {
    var s := Start(Reset(t));
    assert Ticks(s, 2) == Tick(Tick(s));
  }
}
