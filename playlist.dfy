/**
 * The playlist cursor as a state machine over values.  The audio backend is
 * reduced to two facts supplied from outside: which entries fail to decode
 * (`fails`, by index) and, at a poll, whether the channel is still busy.
 * The single output channel is either absent or holds the playback last
 * started on it.
 */
module Playlist {
  import opened Wrappers
  import opened Library

  /** What a started channel plays: the entry's index, the loop count and the volume. */
  datatype Playback = Playback(track: nat, loops: int, volume: Percent)

  datatype PlayerState = PlayerState(
    items: seq<Item>,          // playlist_items
    index: nat,                // current_index
    playing: bool,
    channel: Option<Playback>) // current_channel

  /** pygame's loop count: -1 repeats forever, 0 plays once. */
  function LoopCount(loop: bool): (n: int)
    ensures n == -1 <==> loop
    ensures n == 0 <==> !loop
  {
    if loop then -1 else 0
  }

  /** Entry `j` can start: its sound is already cached, or decoding it succeeds. */
  predicate Playable(items: seq<Item>, fails: set<nat>, j: nat)
    requires j < |items|
  {
    items[j].loaded || j !in fails
  }

  /** While playing, the cursor is on an entry and the channel plays that entry. */
  predicate CursorValid(s: PlayerState)
  {
    s.playing ==> s.index < |s.items| && s.channel.Some? && s.channel.value.track == s.index
  }

  /** The distance to the end of the list, the measure that the skip-forward chain uses up. */
  function Left(s: PlayerState): nat
  {
    if s.index <= |s.items| then |s.items| - s.index else 0
  }

  /** The playback play_current starts for entry `j`: its loop count and its volume. */
  function Start(items: seq<Item>, j: nat): Playback
    requires j < |items|
  {
    Playback(j, LoopCount(items[j].loop), items[j].volume)
  }

  /**
   * play_current: stop unless playing on an entry; decode the entry if it is
   * not cached yet, skipping on via next_track when that fails; then start it.
   */
  function PlayCurrent(s: PlayerState, fails: set<nat>): (r: PlayerState)
    ensures r.index >= s.index && |r.items| == |s.items|
    ensures CursorValid(r)
    decreases Left(s), 2
  {
    if !s.playing || s.index >= |s.items| then
      s.(playing := false)
    else if !s.items[s.index].loaded && s.index in fails then
      NextTrack(s, fails)
    else
      var items := s.items[s.index := s.items[s.index].(loaded := true)];
      s.(items := items, channel := Some(Start(items, s.index)))
  }

  /** next_track: step forward, playing the next entry or stopping past the end. */
  function NextTrack(s: PlayerState, fails: set<nat>): (r: PlayerState)
    ensures |r.items| == |s.items|
    ensures !s.playing ==> r == s
    ensures s.playing ==> r.index > s.index && CursorValid(r)
    decreases Left(s), 1
  {
    if !s.playing then s
    else if s.index + 1 < |s.items| then
      PlayCurrent(s.(index := s.index + 1), fails)
    else
      s.(index := s.index + 1, playing := false, channel := None)
  }

  /** stop_playlist. */
  function Stop(s: PlayerState): (r: PlayerState)
    ensures !r.playing && r.channel.None? && CursorValid(r)
    ensures r.items == s.items && r.index == s.index
  {
    s.(playing := false, channel := None)
  }

  /** play_playlist: nothing on an empty list; otherwise stop and play from the first entry. */
  function PlayPlaylist(s: PlayerState, fails: set<nat>): (r: PlayerState)
    ensures s.items == [] ==> r == s
    ensures s.items != [] ==> CursorValid(r) && |r.items| == |s.items|
  {
    if s.items == [] then s else PlayCurrent(Stop(s).(playing := true, index := 0), fails)
  }

  /** next_track_manual: move forward unless already on the last entry. */
  function NextTrackManual(s: PlayerState, fails: set<nat>): (r: PlayerState)
    ensures CursorValid(s) ==> CursorValid(r)
    ensures |r.items| == |s.items| && r.index >= s.index
  {
    if !s.playing || s.items == [] then s
    else if s.index < |s.items| - 1 then PlayCurrent(s.(index := s.index + 1), fails)
    else s
  }

  /** previous_track: move back unless already on the first entry. */
  function PreviousTrack(s: PlayerState, fails: set<nat>): (r: PlayerState)
    ensures CursorValid(s) ==> CursorValid(r)
    ensures |r.items| == |s.items|
  {
    if !s.playing || s.items == [] then s
    else if s.index > 0 then PlayCurrent(s.(index := s.index - 1), fails)
    else s
  }

  /** check_playlist_end: advance when the channel has fallen silent. */
  function Poll(s: PlayerState, busy: bool, fails: set<nat>): (r: PlayerState)
    ensures CursorValid(s) ==> CursorValid(r)
    ensures |r.items| == |s.items| && r.index >= s.index
  {
    if s.playing && s.channel.Some? && !busy then NextTrack(s, fails) else s
  }

  /**
   * The skip-forward chain of play_current.  From a playing cursor on an
   * entry it lands on the first playable entry at or after the cursor,
   * caches it and starts it; if there is none it stops one past the end.
   * Only the entry it starts changes, and only in its `loaded` flag.
   */
  lemma {:induction false} PlayCurrentSkips(s: PlayerState, fails: set<nat>)
    requires s.playing && s.index < |s.items|
    ensures var r := PlayCurrent(s, fails);
      && (forall k :: s.index <= k < r.index && k < |s.items| ==> !Playable(s.items, fails, k))
      && (r.playing ==>
            && s.index <= r.index < |s.items|
            && Playable(s.items, fails, r.index)
            && r.items == s.items[r.index := s.items[r.index].(loaded := true)]
            && r.channel == Some(Start(s.items, r.index)))
      && (!r.playing ==> r.index == |s.items| && r.items == s.items && r.channel.None?)
    decreases |s.items| - s.index
  {
    if !s.items[s.index].loaded && s.index in fails {
      if s.index + 1 < |s.items| {
        PlayCurrentSkips(s.(index := s.index + 1), fails);
      }
    } else {
      var items := s.items[s.index := s.items[s.index].(loaded := true)];
      assert Start(items, s.index) == Start(s.items, s.index);
    }
  }

  /** Playing, next_track lands strictly further on, on the first playable entry or past the end. */
  lemma NextTrackAdvances(s: PlayerState, fails: set<nat>)
    requires s.playing
    ensures var r := NextTrack(s, fails);
      && r.index > s.index
      && (r.playing ==> r.index < |s.items| && Playable(s.items, fails, r.index))
      && (!r.playing ==> r.channel.None? && r.items == s.items)
      && (forall k :: s.index < k < r.index && k < |s.items| ==> !Playable(s.items, fails, k))
  {
    if s.index + 1 < |s.items| {
      PlayCurrentSkips(s.(index := s.index + 1), fails);
    }
  }

  /** play_playlist: a no-op on an empty list; starts the first entry when it can play. */
  lemma PlayPlaylistStart(s: PlayerState, fails: set<nat>)
    ensures s.items == [] ==> PlayPlaylist(s, fails) == s
    ensures s.items != [] && Playable(s.items, fails, 0) ==>
      var r := PlayPlaylist(s, fails);
      r.playing && r.index == 0 && r.channel == Some(Start(s.items, 0))
    ensures s.items != [] && (forall k :: 0 <= k < |s.items| ==> !Playable(s.items, fails, k)) ==>
      var r := PlayPlaylist(s, fails);
      !r.playing && r.index == |s.items| && r.channel.None?
  {
    if s.items != [] {
      PlayCurrentSkips(Stop(s).(playing := true, index := 0), fails);
    }
  }

  /** The manual buttons clamp at the ends and do nothing while stopped. */
  lemma ManualStepsClamp(s: PlayerState, fails: set<nat>)
    ensures !s.playing || s.items == [] ==>
      NextTrackManual(s, fails) == s && PreviousTrack(s, fails) == s
    ensures s.index == 0 ==> PreviousTrack(s, fails) == s
    ensures s.index + 1 >= |s.items| ==> NextTrackManual(s, fails) == s
    ensures s.playing && 0 < s.index <= |s.items| && Playable(s.items, fails, s.index - 1) ==>
      PreviousTrack(s, fails).index == s.index - 1 && PreviousTrack(s, fails).playing
    ensures s.playing && s.index + 1 < |s.items| && Playable(s.items, fails, s.index + 1) ==>
      NextTrackManual(s, fails).index == s.index + 1 && NextTrackManual(s, fails).playing
  {
    if s.playing && 0 < s.index <= |s.items| {
      PlayCurrentSkips(s.(index := s.index - 1), fails);
    }
    if s.playing && s.index + 1 < |s.items| {
      PlayCurrentSkips(s.(index := s.index + 1), fails);
    }
  }

  /** The poll advances only a playing cursor whose channel exists and has gone quiet. */
  lemma PollAdvancesOnlyWhenSilent(s: PlayerState, busy: bool, fails: set<nat>)
    ensures busy || !s.playing || s.channel.None? ==> Poll(s, busy, fails) == s
    ensures s.playing && s.channel.Some? && !busy ==> Poll(s, busy, fails).index > s.index
  {
    if s.playing && s.channel.Some? && !busy {
      NextTrackAdvances(s, fails);
    }
  }

  /** play, stop, next, previous and the poll all keep the cursor on an entry while playing. */
  lemma CursorValidPreserved(s: PlayerState, busy: bool, fails: set<nat>)
    requires CursorValid(s)
    ensures CursorValid(PlayPlaylist(s, fails))
    ensures CursorValid(Stop(s))
    ensures CursorValid(NextTrack(s, fails))
    ensures CursorValid(NextTrackManual(s, fails))
    ensures CursorValid(PreviousTrack(s, fails))
    ensures CursorValid(Poll(s, busy, fails))
  {
    PlayPlaylistCursor(s, fails);
    if s.playing {
      NextTrackAdvances(s, fails);
      if s.index + 1 < |s.items| {
        PlayCurrentSkips(s.(index := s.index + 1), fails);
      }
      if 0 < s.index {
        PlayCurrentSkips(s.(index := s.index - 1), fails);
      }
    }
  }

  lemma PlayPlaylistCursor(s: PlayerState, fails: set<nat>)
    requires CursorValid(s)
    ensures CursorValid(PlayPlaylist(s, fails))
  {
    if s.items != [] {
      PlayCurrentSkips(Stop(s).(playing := true, index := 0), fails);
    }
  }

  /**
   * load_playlist replaces the entries but keeps the cursor and the playing
   * flag, so a shorter folder leaves a playing cursor past the end.
   */
  lemma ReloadCanBreakCursor()
    ensures var s := PlayerState([NewItem("a.mp3"), NewItem("b.mp3")], 1, true, Some(Playback(1, 0, 70)));
      CursorValid(s) && !CursorValid(s.(items := Entries(["c.ogg"])))
  {
    var s := PlayerState([NewItem("a.mp3"), NewItem("b.mp3")], 1, true, Some(Playback(1, 0, 70)));
    assert |Entries(["c.ogg"])| == |AudioFiles(["c.ogg"])|;
    assert |AudioFiles(["c.ogg"])| <= 1;
  }

  /**
   * The manual next button can stop the playlist: it steps onto the last
   * entry, that entry fails to decode, and play_current skips on through
   * next_track, which runs off the end.
   */
  lemma ManualNextCanStopPastEnd()
    ensures var s := PlayerState([NewItem("a.mp3"), NewItem("b.mp3")], 0, true, Some(Playback(0, 0, 70)));
      var r := NextTrackManual(s, {1});
      CursorValid(s) && r.index == 2 && !r.playing && r.channel.None?
  {
  }
}
