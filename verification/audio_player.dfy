/** The state record of the audio-player hook (src/hooks/useAudioPlayer.ts)
    and every update the hook applies to it, as pure functions. The native
    audio element is not modelled: what it reports (a position, a duration,
    whether `play()` settled or was refused) arrives as a parameter. */
module AudioPlayer {
  import opened Seqs
  import opened Music
  import Playlist
  import LyricSync

  /** `PlayerState`, plus the volume-slider flag the hook keeps beside it.
      Times are in seconds; `currentIndex` is `-1` until a song is chosen. */
  datatype PlayerState = PlayerState(
    currentSong: Option<Song>,
    isPlaying: bool,
    currentTime: real,
    duration: real,
    volume: real,
    currentIndex: int,
    playlist: seq<Song>,
    lyrics: seq<LyricLine>,
    isLoading: bool,
    showVolumeSlider: bool)

  /** The state the hook is created with. */
  const Initial: PlayerState :=
    PlayerState(None, false, 0.0, 0.0, 1.0, -1, [], [], false, false)

  /** How the audio element's `play()` promise settles. */
  datatype PlayOutcome = Resolved | Rejected

  function Min(a: real, b: real): real { if a <= b then a else b }
  function Max(a: real, b: real): real { if a >= b then a else b }

  /** `Math.max(0, Math.min(1, v))`. */
  function Clamp(v: real): (r: real)
    ensures 0.0 <= r <= 1.0
    ensures 0.0 <= v <= 1.0 ==> r == v
    ensures v < 0.0 ==> r == 0.0
    ensures v > 1.0 ==> r == 1.0
  {
    Max(0.0, Min(1.0, v))
  }

  /** Clamping a clamped volume changes nothing. */
  lemma ClampIdempotent(v: real)
    ensures Clamp(Clamp(v)) == Clamp(v)
  {
  }

  // ---------------------------------------------------------------------
  // Audio element events

  /** `timeupdate`: the reported position becomes the current time. */
  function OnTimeUpdate(s: PlayerState, position: real): (r: PlayerState)
    ensures r.currentTime == position
    ensures r.(currentTime := s.currentTime) == s
  {
    s.(currentTime := position)
  }

  /** `durationchange`: `audio.duration || 0`, where `None` stands for the
      NaN duration of a source whose length is not yet known. */
  function OnDurationChange(s: PlayerState, duration: Option<real>): (r: PlayerState)
    ensures r.duration == 0.0 <==> duration.None? || duration.value == 0.0
    ensures duration.Some? ==> r.duration == duration.value
    ensures r.(duration := s.duration) == s
  {
    s.(duration := if duration.Some? then duration.value else 0.0)
  }

  /** `loadstart`: the element begins fetching. */
  function OnLoadStart(s: PlayerState): (r: PlayerState)
    ensures r.isLoading
    ensures r.(isLoading := s.isLoading) == s
  {
    s.(isLoading := true)
  }

  /** `canplay`: enough is buffered to start. */
  function OnCanPlay(s: PlayerState): (r: PlayerState)
    ensures !r.isLoading
    ensures r.(isLoading := s.isLoading) == s
  {
    s.(isLoading := false)
  }

  // ---------------------------------------------------------------------
  // Commands

  /** `loadPlaylist` once the song list has been fetched. */
  function PlaylistLoaded(s: PlayerState, songs: seq<Song>): (r: PlayerState)
    ensures r.playlist == songs
    ensures r.(playlist := s.playlist) == s
  {
    s.(playlist := songs)
  }

  /** The first, synchronous update of `playSong`. */
  function BeginPlay(s: PlayerState, song: Song, index: int): (r: PlayerState)
    ensures r.currentSong == Some(song) && r.currentIndex == index && r.isLoading
    ensures r.(currentSong := s.currentSong, currentIndex := s.currentIndex, isLoading := s.isLoading) == s
  {
    s.(currentSong := Some(song), currentIndex := index, isLoading := true)
  }

  /** `playSong(song, index)` run to completion: the song is selected and
      loading begins, the fetched `lyrics` are installed, then `play()`
      either settles (playing) or is refused (neither playing nor loading).
      On success the loading flag is left for the `canplay` event to clear. */
  function PlaySong(s: PlayerState, song: Song, index: int, lyrics: seq<LyricLine>, outcome: PlayOutcome): (r: PlayerState)
    ensures r.currentSong == Some(song) && r.currentIndex == index && r.lyrics == lyrics
    ensures outcome == Resolved ==> r.isPlaying && r.isLoading
    ensures outcome == Rejected ==> !r.isPlaying && !r.isLoading
    ensures r.playlist == s.playlist && r.volume == s.volume && r.showVolumeSlider == s.showVolumeSlider
    ensures r.currentTime == s.currentTime && r.duration == s.duration
  {
    var loaded := BeginPlay(s, song, index).(lyrics := lyrics);
    match outcome
    case Resolved => loaded.(isPlaying := true)
    case Rejected => loaded.(isPlaying := false, isLoading := false)
  }

  /** Starting the same song again with the same lyrics and outcome lands
      in the same state. */
  lemma PlaySongIdempotent(s: PlayerState, song: Song, index: int, lyrics: seq<LyricLine>, outcome: PlayOutcome)
    ensures var once := PlaySong(s, song, index, lyrics, outcome);
      PlaySong(once, song, index, lyrics, outcome) == once
  {
  }

  /** A resolved `play()` followed by the element's `canplay` event leaves
      the chosen song playing and no longer loading; a refused one is already
      settled, and `canplay` changes nothing. */
  lemma PlayThenCanPlay(s: PlayerState, song: Song, index: int, lyrics: seq<LyricLine>, outcome: PlayOutcome)
    ensures var r := OnCanPlay(PlaySong(s, song, index, lyrics, outcome));
      && r.currentSong == Some(song) && r.currentIndex == index && !r.isLoading
      && (r.isPlaying <==> outcome == Resolved)
    ensures outcome == Rejected ==>
      OnCanPlay(PlaySong(s, song, index, lyrics, outcome)) == PlaySong(s, song, index, lyrics, outcome)
  {
  }

  /** `togglePlayPause`: pausing always succeeds; resuming takes effect only
      when `play()` settles, and a refusal leaves the state as it was. */
  function TogglePlayPause(s: PlayerState, outcome: PlayOutcome): (r: PlayerState)
    ensures s.isPlaying ==> !r.isPlaying
    ensures !s.isPlaying ==> (r.isPlaying <==> outcome == Resolved)
    ensures r.(isPlaying := s.isPlaying) == s
  {
    if s.isPlaying then s.(isPlaying := false)
    else if outcome == Resolved then s.(isPlaying := true)
    else s
  }

  /** Pausing and then successfully resuming restores the state. */
  lemma PauseThenResume(s: PlayerState, outcome: PlayOutcome)
    requires s.isPlaying
    ensures TogglePlayPause(TogglePlayPause(s, outcome), Resolved) == s
  {
  }

  /** What playing playlist entry `k` leaves behind, read off `playSong`:
      the entry and its index are current with the fetched lyrics, the
      playing and loading flags follow the `play()` outcome, and the
      playlist, volume, slider, position and duration are as before. */
  predicate PlaysEntry(s: PlayerState, r: PlayerState, k: int, lyrics: seq<LyricLine>, outcome: PlayOutcome)
  {
    && 0 <= k < |s.playlist|
    && r.currentIndex == k && r.currentSong == Some(s.playlist[k]) && r.lyrics == lyrics
    && (outcome == Resolved ==> r.isPlaying && r.isLoading)
    && (outcome == Rejected ==> !r.isPlaying && !r.isLoading)
    && r.playlist == s.playlist && r.volume == s.volume && r.showVolumeSlider == s.showVolumeSlider
    && r.currentTime == s.currentTime && r.duration == s.duration
  }

  /** The body of `next` when run by a callback that captured the state
      `snapshot`: the playlist and cursor are read from the snapshot, while
      the updates of `playSong` apply to the live state `s`. A cursor below
      `-1` points before the playlist: `playSong` then receives `undefined`
      and throws on reading its `url` before making any update. */
  function NextWith(snapshot: PlayerState, s: PlayerState, lyrics: seq<LyricLine>, outcome: PlayOutcome): (r: PlayerState)
    ensures |snapshot.playlist| == 0 || snapshot.currentIndex < -1 ==> r == s
    ensures |snapshot.playlist| > 0 && snapshot.currentIndex >= -1 ==>
      && r.currentIndex == Playlist.NextIndex(|snapshot.playlist|, snapshot.currentIndex)
      && r.currentSong == Some(snapshot.playlist[r.currentIndex])
      && r.lyrics == lyrics
      && (outcome == Resolved ==> r.isPlaying && r.isLoading)
      && (outcome == Rejected ==> !r.isPlaying && !r.isLoading)
      && r.playlist == s.playlist && r.volume == s.volume && r.showVolumeSlider == s.showVolumeSlider
      && r.currentTime == s.currentTime && r.duration == s.duration
  {
    var list := snapshot.playlist;
    if |list| == 0 then s
    else
      var k := Playlist.NextIndex(|list|, snapshot.currentIndex);
      if 0 <= k < |list| then PlaySong(s, list[k], k, lyrics, outcome) else s
  }

  /** `next` from the control bar: nothing on an empty playlist, otherwise
      play the entry one place further on around the cycle. */
  function Next(s: PlayerState, lyrics: seq<LyricLine>, outcome: PlayOutcome): (r: PlayerState)
    ensures |s.playlist| == 0 || s.currentIndex < -1 ==> r == s
    ensures |s.playlist| > 0 && s.currentIndex >= -1 ==>
      PlaysEntry(s, r, Playlist.NextIndex(|s.playlist|, s.currentIndex), lyrics, outcome)
    ensures |s.playlist| > 0 && -1 <= s.currentIndex < |s.playlist| ==>
      r.currentIndex == (s.currentIndex + 1) % |s.playlist|
  {
    var len := |s.playlist|;
    assert len > 0 && -1 <= s.currentIndex < len ==>
      Playlist.NextIndex(len, s.currentIndex) == (s.currentIndex + 1) % len
    by {
      if len > 0 && -1 <= s.currentIndex < len {
        Playlist.NextIndexIsModular(len, s.currentIndex);
      }
    }
    NextWith(s, s, lyrics, outcome)
  }

  /** `previous` from the control bar: nothing on an empty playlist,
      otherwise play the entry one place back around the cycle. A cursor
      more than one past the end (reachable while the hook's playlist lags
      behind the grid that set the cursor) points after the playlist, and
      `playSong` throws before making any update. */
  function Previous(s: PlayerState, lyrics: seq<LyricLine>, outcome: PlayOutcome): (r: PlayerState)
    ensures |s.playlist| == 0 || s.currentIndex > |s.playlist| ==> r == s
    ensures |s.playlist| > 0 && s.currentIndex <= |s.playlist| ==>
      PlaysEntry(s, r, Playlist.PrevIndex(|s.playlist|, s.currentIndex), lyrics, outcome)
    ensures 0 <= s.currentIndex < |s.playlist| ==> r.currentIndex == (s.currentIndex - 1) % |s.playlist|
  {
    var list := s.playlist;
    if |list| == 0 then s
    else
      var k := Playlist.PrevIndex(|list|, s.currentIndex);
      assert 0 <= s.currentIndex < |list| ==> k == (s.currentIndex - 1) % |list| by {
        if 0 <= s.currentIndex < |list| {
          Playlist.PrevIndexIsModular(|list|, s.currentIndex);
        }
      }
      if 0 <= k < |list| then PlaySong(s, list[k], k, lyrics, outcome) else s
  }

  /** `previous` after `next` (and `next` after `previous`) returns to the
      song that was playing, whatever the playlist length. */
  lemma NextPreviousReturn(s: PlayerState, l1: seq<LyricLine>, o1: PlayOutcome, l2: seq<LyricLine>, o2: PlayOutcome)
    requires 0 <= s.currentIndex < |s.playlist|
    ensures var r := Previous(Next(s, l1, o1), l2, o2);
      r.currentIndex == s.currentIndex && r.currentSong == Some(s.playlist[s.currentIndex])
    ensures var r := Next(Previous(s, l1, o1), l2, o2);
      r.currentIndex == s.currentIndex && r.currentSong == Some(s.playlist[s.currentIndex])
  {
    Playlist.NextPrevInverse(|s.playlist|, s.currentIndex);
  }

  /** The `ended` listener as written: it is registered once, when the hook
      mounts, and calls the `next` of that first render, whose captured state
      is `Initial` with an empty playlist. */
  function OnEndedAsWritten(s: PlayerState, lyrics: seq<LyricLine>, outcome: PlayOutcome): (r: PlayerState)
    ensures r == s
  {
    NextWith(Initial, s, lyrics, outcome)
  }

  /** The `ended` listener as evidently intended: advance from the live
      state, exactly as the control bar's `next` does. */
  function OnEnded(s: PlayerState, lyrics: seq<LyricLine>, outcome: PlayOutcome): (r: PlayerState)
    ensures |s.playlist| == 0 || s.currentIndex < -1 ==> r == s
    ensures |s.playlist| > 0 && s.currentIndex >= -1 ==>
      PlaysEntry(s, r, Playlist.NextIndex(|s.playlist|, s.currentIndex), lyrics, outcome)
  {
    Next(s, lyrics, outcome)
  }

  /** A song that finishes with more to play: the listener as written leaves
      the player where it is, the intended listener starts the next song. */
  lemma EndedDoesNotAdvance(s: PlayerState, lyrics: seq<LyricLine>)
    requires 0 <= s.currentIndex < |s.playlist| - 1
    ensures OnEndedAsWritten(s, lyrics, Resolved).currentIndex == s.currentIndex
    ensures OnEnded(s, lyrics, Resolved).currentIndex == s.currentIndex + 1
  {
  }

  /** `seekTo(t)`: the position becomes `t`, unclamped, and nothing else
      changes; the active lyric line becomes the one for `t` in the same
      lyrics. */
  function SeekTo(s: PlayerState, time: real): (r: PlayerState)
    ensures r.currentTime == time
    ensures r.(currentTime := s.currentTime) == s
    ensures CurrentLyricLine(r) == LyricSync.CurrentLyricLine(s.lyrics, time)
  {
    s.(currentTime := time)
  }

  /** `setVolume(v)`: stores `v` clamped to [0, 1]; nothing else changes. */
  function SetVolume(s: PlayerState, v: real): (r: PlayerState)
    ensures 0.0 <= r.volume <= 1.0
    ensures 0.0 <= v <= 1.0 ==> r.volume == v
    ensures v < 0.0 ==> r.volume == 0.0
    ensures v > 1.0 ==> r.volume == 1.0
    ensures r.(volume := s.volume) == s
  {
    s.(volume := Clamp(v))
  }

  /** Setting the volume a second time to what the first call stored
      changes nothing. */
  lemma SetVolumeIdempotent(s: PlayerState, v: real)
    ensures var once := SetVolume(s, v); SetVolume(once, once.volume) == once
  {
  }

  /** `volumeUp`: one tenth louder, never above 1. */
  function VolumeUp(s: PlayerState): (r: PlayerState)
    ensures 0.0 <= r.volume <= 1.0
    ensures 0.0 <= s.volume <= 1.0 ==> s.volume <= r.volume
    ensures 0.0 <= s.volume <= 0.9 ==> r.volume == s.volume + 0.1
    ensures r.(volume := s.volume) == s
  {
    SetVolume(s, Min(1.0, s.volume + 0.1))
  }

  /** `volumeDown`: one tenth quieter, never below 0. */
  function VolumeDown(s: PlayerState): (r: PlayerState)
    ensures 0.0 <= r.volume <= 1.0
    ensures 0.0 <= s.volume <= 1.0 ==> r.volume <= s.volume
    ensures 0.1 <= s.volume <= 1.0 ==> r.volume == s.volume - 0.1
    ensures r.(volume := s.volume) == s
  {
    SetVolume(s, Max(0.0, s.volume - 0.1))
  }

  /** One step up and one step down cancel out away from the ends of the
      range. */
  lemma VolumeStepsCancel(s: PlayerState)
    ensures 0.0 <= s.volume <= 0.9 ==> VolumeDown(VolumeUp(s)) == s
    ensures 0.1 <= s.volume <= 1.0 ==> VolumeUp(VolumeDown(s)) == s
  {
  }

  /** `toggleVolumeSlider`. */
  function ToggleVolumeSlider(s: PlayerState): (r: PlayerState)
    ensures r.showVolumeSlider != s.showVolumeSlider
    ensures r.(showVolumeSlider := s.showVolumeSlider) == s
  {
    s.(showVolumeSlider := !s.showVolumeSlider)
  }

  /** `hideVolumeSlider`. */
  function HideVolumeSlider(s: PlayerState): (r: PlayerState)
    ensures !r.showVolumeSlider
    ensures r.(showVolumeSlider := s.showVolumeSlider) == s
  {
    s.(showVolumeSlider := false)
  }

  /** `getCurrentLyricLine` on the live state. */
  function CurrentLyricLine(s: PlayerState): (r: Option<LyricLine>)
    ensures r.Some? ==> r.value in s.lyrics
    ensures r.Some? ==> r.value.time as real <= s.currentTime * 1000.0
    ensures r.None? <==> forall j :: 0 <= j < |s.lyrics| ==> s.lyrics[j].time as real > s.currentTime * 1000.0
    ensures r.Some? ==> exists i :: LyricSync.IsLastStarted(s.lyrics, s.currentTime * 1000.0, i) && s.lyrics[i] == r.value
  {
    LyricSync.CurrentLyricLine(s.lyrics, s.currentTime)
  }
}
