/** The lyric synchroniser of the audio-player hook (`getCurrentLyricLine` in
    src/hooks/useAudioPlayer.ts): picks the line being sung at a playback
    position by scanning the lyric list from the end. */
module LyricSync {
  import opened Seqs
  import opened Music

  /** The playback position, given in seconds, as milliseconds. */
  function ToMillis(seconds: real): real
  {
    seconds * 1000.0
  }

  /** A line has started once the position reaches its timestamp. */
  predicate Started(line: LyricLine, ms: real)
  {
    ms >= line.time as real
  }

  /** `i` is the last index whose line has started at `ms`. */
  ghost predicate IsLastStarted(lyrics: seq<LyricLine>, ms: real, i: int)
  {
    && 0 <= i < |lyrics|
    && Started(lyrics[i], ms)
    && forall j :: i < j < |lyrics| ==> !Started(lyrics[j], ms)
  }

  /** At most one index is the last started one. */
  lemma LastStartedUnique(lyrics: seq<LyricLine>, ms: real, i: int, k: int)
    requires IsLastStarted(lyrics, ms, i) && IsLastStarted(lyrics, ms, k)
    ensures i == k
  {
  }

  /** Timestamps never decrease along the list (assumed of lyric files, never
      enforced by the player). */
  ghost predicate Ascending(lyrics: seq<LyricLine>)
  {
    forall i, j :: 0 <= i < j < |lyrics| ==> lyrics[i].time <= lyrics[j].time
  }

  /** The loop `for (i = n - 1; i >= 0; i--) if (ms >= lyrics[i].time) return i`,
      restricted to the first `n` lines. */
  function ScanBack(lyrics: seq<LyricLine>, ms: real, n: nat): (r: Option<nat>)
    requires n <= |lyrics|
    ensures r.Some? ==> r.value < n && Started(lyrics[r.value], ms)
    ensures r.Some? ==> forall j :: r.value < j < n ==> !Started(lyrics[j], ms)
    ensures r.None? ==> forall j :: 0 <= j < n ==> !Started(lyrics[j], ms)
    decreases n
  {
    if n == 0 then None
    else if Started(lyrics[n - 1], ms) then Some(n - 1)
    else ScanBack(lyrics, ms, n - 1)
  }

  /** `getCurrentLyricLine`: null for an empty lyric list; otherwise the last
      line whose timestamp is at or before the position, or null when no
      line has started yet. */
  function CurrentLyricLine(lyrics: seq<LyricLine>, currentTime: real): (r: Option<LyricLine>)
    ensures |lyrics| == 0 ==> r.None?
    ensures r.None? <==> forall j :: 0 <= j < |lyrics| ==> !Started(lyrics[j], ToMillis(currentTime))
    ensures r.Some? ==> exists i :: IsLastStarted(lyrics, ToMillis(currentTime), i) && lyrics[i] == r.value
  {
    if |lyrics| == 0 then None
    else
      match ScanBack(lyrics, ToMillis(currentTime), |lyrics|)
      case None => None
      case Some(i) =>
        assert IsLastStarted(lyrics, ToMillis(currentTime), i);
        Some(lyrics[i])
  }

  /** The returned line belongs to the list, has started, and every line
      after it in the list has not. */
  lemma CurrentLineHasStarted(lyrics: seq<LyricLine>, currentTime: real)
    requires CurrentLyricLine(lyrics, currentTime).Some?
    ensures var line := CurrentLyricLine(lyrics, currentTime).value;
      && line in lyrics
      && line.time as real <= ToMillis(currentTime)
      && exists i :: 0 <= i < |lyrics| && lyrics[i] == line &&
           forall j :: i < j < |lyrics| ==> lyrics[j].time as real > ToMillis(currentTime)
  {
  }

  /** With ascending timestamps the returned line is the latest-started one:
      no started line has a later timestamp, and the next line (if any) has
      not started. */
  lemma AscendingPicksLatest(lyrics: seq<LyricLine>, currentTime: real, i: int)
    requires Ascending(lyrics)
    requires IsLastStarted(lyrics, ToMillis(currentTime), i)
    ensures forall j :: 0 <= j < |lyrics| && Started(lyrics[j], ToMillis(currentTime)) ==> lyrics[j].time <= lyrics[i].time
    ensures forall j :: 0 <= j <= i ==> Started(lyrics[j], ToMillis(currentTime))
    ensures i + 1 < |lyrics| ==> ToMillis(currentTime) < lyrics[i + 1].time as real
  {
  }

  /** With ascending timestamps, moving the position forward never moves the
      active line backward. */
  lemma ScanBackMonotone(lyrics: seq<LyricLine>, ms1: real, ms2: real)
    requires Ascending(lyrics)
    requires ms1 <= ms2
    requires ScanBack(lyrics, ms1, |lyrics|).Some?
    ensures ScanBack(lyrics, ms2, |lyrics|).Some?
    ensures ScanBack(lyrics, ms1, |lyrics|).value <= ScanBack(lyrics, ms2, |lyrics|).value
  {
    var i := ScanBack(lyrics, ms1, |lyrics|).value;
    assert Started(lyrics[i], ms2);
  }
}
