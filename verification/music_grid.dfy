/** The song grid (src/components/MusicGrid.tsx): the Fisher-Yates shuffle it
    applies to the catalogue on load, and the rule that marks a card active.
    The values `Math.random()` would return are an input: `rand[i]` is the
    draw made at loop position `i` (position 0 draws nothing). */
module MusicGrid {
  import opened Seqs
  import opened Music
  import AudioPlayer

  /** `Math.floor(u * (i + 1))` for a draw `u` in [0, 1): a position in [0, i]. */
  function PickIndex(u: real, i: nat): (j: nat)
    requires 0.0 <= u < 1.0
    ensures j <= i
  {
    ScaledDrawBelow(u, i + 1);
    (u * (i + 1) as real).Floor
  }

  /** A draw in [0, 1) scaled by a positive whole number `m` lies in [0, m). */
  lemma {:induction false} ScaledDrawBelow(u: real, m: nat)
    requires 0.0 <= u < 1.0 && m >= 1
    ensures 0.0 <= u * m as real < m as real
    decreases m
  {
    if m > 1 {
      ScaledDrawBelow(u, m - 1);
      assert u * m as real == u * (m - 1) as real + u;
    }
  }

  /** Every draw is a possible value of `Math.random()`. */
  ghost predicate ValidDraws(rand: seq<real>)
  {
    forall k :: 0 <= k < |rand| ==> 0.0 <= rand[k] < 1.0
  }

  /** `[s[i], s[j]] = [s[j], s[i]]`. */
  function Swap<T>(s: seq<T>, i: nat, j: nat): (r: seq<T>)
    requires i < |s| && j < |s|
    ensures |r| == |s| && r[i] == s[j] && r[j] == s[i]
    ensures forall k :: 0 <= k < |s| && k != i && k != j ==> r[k] == s[k]
  {
    s[i := s[j]][j := s[i]]
  }

  /** A swap is a permutation. */
  lemma SwapPermutes<T>(s: seq<T>, i: nat, j: nat)
    requires i < |s| && j < |s|
    ensures multiset(Swap(s, i, j)) == multiset(s)
  {
  }

  /** The array at the head of the loop with cursor `i`: the iterations for
      positions `|s| - 1` down to `i + 1` applied to `s`. */
  function PartialShuffle<T>(s: seq<T>, rand: seq<real>, i: int): (r: seq<T>)
    requires -1 <= i < |s| <= |rand| && ValidDraws(rand)
    ensures |r| == |s|
    decreases |s| - i
  {
    if i == |s| - 1 then s
    else Swap(PartialShuffle(s, rand, i + 1), i + 1, PickIndex(rand[i + 1], i + 1))
  }

  /** The whole shuffle: positions `|s| - 1` down to 1. */
  function Shuffled<T>(s: seq<T>, rand: seq<real>): (r: seq<T>)
    requires |s| <= |rand| && ValidDraws(rand)
    ensures |r| == |s|
    ensures |s| <= 1 ==> r == s
  {
    PartialShuffle(s, rand, if |s| == 0 then -1 else 0)
  }

  /** `shuffleArray`: shuffles a copy of `songs` in place, from the last
      position down to position 1, swapping each position with a randomly
      drawn one at or before it. */
  method ShuffleArray<T>(songs: seq<T>, rand: seq<real>) returns (shuffled: seq<T>)
    requires |songs| <= |rand| && ValidDraws(rand)
    ensures shuffled == Shuffled(songs, rand)
    ensures |shuffled| == |songs|
    ensures multiset(shuffled) == multiset(songs)
    ensures |songs| <= 1 ==> shuffled == songs
  {
    shuffled := songs;
    var i := |shuffled| - 1;
    while i > 0
      invariant -1 <= i < |songs|
      invariant |songs| > 0 ==> i >= 0
      invariant shuffled == PartialShuffle(songs, rand, i)
      decreases i
    {
      var j := PickIndex(rand[i], i);
      shuffled := Swap(shuffled, i, j);
      i := i - 1;
    }
    PartialShufflePermutes(songs, rand, i);
  }

  /** Every stage of the shuffle is a permutation of its input. */
  lemma {:induction false} PartialShufflePermutes<T>(s: seq<T>, rand: seq<real>, i: int)
    requires -1 <= i < |s| <= |rand| && ValidDraws(rand)
    ensures multiset(PartialShuffle(s, rand, i)) == multiset(s)
    decreases |s| - i
  {
    if i < |s| - 1 {
      PartialShufflePermutes(s, rand, i + 1);
      SwapPermutes(PartialShuffle(s, rand, i + 1), i + 1, PickIndex(rand[i + 1], i + 1));
    }
  }

  /** Once the cursor has passed a position, later iterations never move
      what is there: every swap stays at or below the cursor. */
  lemma {:induction false} PassedPositionsAreFinal<T>(s: seq<T>, rand: seq<real>, i: int, i0: int)
    requires -1 <= i0 <= i < |s| <= |rand| && ValidDraws(rand)
    ensures forall k :: i < k < |s| ==> PartialShuffle(s, rand, i0)[k] == PartialShuffle(s, rand, i)[k]
    decreases i - i0
  {
    if i0 < i {
      PassedPositionsAreFinal(s, rand, i, i0 + 1);
      var j := PickIndex(rand[i0 + 1], i0 + 1);
      assert PartialShuffle(s, rand, i0) == Swap(PartialShuffle(s, rand, i0 + 1), i0 + 1, j);
    }
  }

  /** If every draw picks the position itself, the shuffle changes nothing. */
  lemma {:induction false} ShuffleIdentity<T>(s: seq<T>, rand: seq<real>, i: int)
    requires -1 <= i < |s| <= |rand| && ValidDraws(rand)
    requires forall k :: i < k < |s| ==> PickIndex(rand[k], k) == k
    ensures PartialShuffle(s, rand, i) == s
    decreases |s| - i
  {
    if i < |s| - 1 {
      ShuffleIdentity(s, rand, i + 1);
      var j := PickIndex(rand[i + 1], i + 1);
      assert j == i + 1;
      assert Swap(s, i + 1, j) == s by {
        assert forall k :: 0 <= k < |s| ==> Swap(s, i + 1, j)[k] == s[k];
      }
    }
  }

  /** A card is highlighted when its title is the playing song's title. */
  predicate IsActiveCard(current: Option<Song>, song: Song): (b: bool)
    ensures current.None? ==> !b
    ensures current == Some(song) ==> b
  {
    current.Some? && current.value.title == song.title
  }

  /** The card shows a pause button when it is active and audio is playing. */
  predicate ShowsPause(current: Option<Song>, isPlaying: bool, song: Song)
  {
    IsActiveCard(current, song) && isPlaying
  }

  /** Cards are compared by title only: any two songs sharing a title are
      both active or both inactive, and nothing is active with no song. */
  lemma ActiveByTitle(current: Option<Song>, a: Song, b: Song)
    ensures a.title == b.title ==> (IsActiveCard(current, a) <==> IsActiveCard(current, b))
    ensures current.None? ==> !IsActiveCard(current, a)
    ensures current == Some(a) ==> IsActiveCard(current, a)
  {
  }

  /** The pause button follows playback. Once a chosen song's `play()`
      resolves, exactly the cards with its title show pause. A refused
      `play()` shows it on no card, and neither does pausing. */
  lemma PauseButtonFollowsPlayback(s: AudioPlayer.PlayerState, song: Song, index: int, lyrics: seq<LyricLine>, card: Song)
    ensures var r := AudioPlayer.PlaySong(s, song, index, lyrics, AudioPlayer.Resolved);
      ShowsPause(r.currentSong, r.isPlaying, card) <==> card.title == song.title
    ensures var r := AudioPlayer.PlaySong(s, song, index, lyrics, AudioPlayer.Rejected);
      !ShowsPause(r.currentSong, r.isPlaying, card)
    ensures s.isPlaying ==>
      var r := AudioPlayer.TogglePlayPause(s, AudioPlayer.Resolved);
      !ShowsPause(r.currentSong, r.isPlaying, card)
  {
  }
}
