/** The playlist cursor arithmetic of `next` and `previous` in
    src/hooks/useAudioPlayer.ts. The cursor is `-1` before anything has been
    played; both steps wrap around the ends of the playlist. The empty-playlist
    guard lives with the state update in the AudioPlayer module. */
module Playlist {

  /** The index `next` moves to: one forward, or back to the start from the
      last entry (or from anywhere past it). */
  function NextIndex(len: nat, current: int): (r: int)
    ensures len > 0 && current >= -1 ==> 0 <= r < len
  {
    if current < len - 1 then current + 1 else 0
  }

  /** The index `previous` moves to: one backward, or to the last entry from
      the first entry (or from the initial `-1`). */
  function PrevIndex(len: nat, current: int): (r: int)
    ensures len > 0 && current <= len ==> 0 <= r < len
  {
    if current > 0 then current - 1 else len - 1
  }

  /** Before anything has been played, `next` starts at the first entry and
      `previous` at the last. */
  lemma FromInitialCursor(len: nat)
    requires len > 0
    ensures NextIndex(len, -1) == 0
    ensures PrevIndex(len, -1) == len - 1
  {
  }

  /** `previous` undoes `next` and `next` undoes `previous` on every valid
      index, including on a one-entry playlist. */
  lemma NextPrevInverse(len: nat, i: int)
    requires 0 <= i < len
    ensures PrevIndex(len, NextIndex(len, i)) == i
    ensures NextIndex(len, PrevIndex(len, i)) == i
  {
  }

  /** One press of `next` from the initial cursor or from a valid index
      moves one place forward around the cycle. */
  lemma NextIndexIsModular(len: nat, current: int)
    requires len > 0 && -1 <= current < len
    ensures NextIndex(len, current) == (current + 1) % len
  {
    if current < len - 1 {
      ModUnique(current + 1, len, 0, current + 1);
    } else {
      ModUnique(current + 1, len, 1, 0);
    }
  }

  /** One press of `previous` from a valid index moves one place backward
      around the cycle. */
  lemma PrevIndexIsModular(len: nat, current: int)
    requires 0 <= current < len
    ensures PrevIndex(len, current) == (current - 1) % len
  {
    if current > 0 {
      ModUnique(current - 1, len, 0, current - 1);
    } else {
      ModUnique(current - 1, len, -1, len - 1);
    }
  }

  /** The cursor after `k` presses of `next`. */
  function NextTimes(len: nat, i: int, k: nat): int
    decreases k
  {
    if k == 0 then i else NextIndex(len, NextTimes(len, i, k - 1))
  }

  /** The cursor after `k` presses of `previous`. */
  function PrevTimes(len: nat, i: int, k: nat): int
    decreases k
  {
    if k == 0 then i else PrevIndex(len, PrevTimes(len, i, k - 1))
  }

  lemma {:induction false} MulAtLeast(d: nat, n: nat)
    requires d >= 1
    ensures d * n >= n
    decreases d
  {
    if d > 1 {
      MulAtLeast(d - 1, n);
      assert d * n == (d - 1) * n + n;
    }
  }

  /** Euclidean division is unique: a remainder in range that fits some
      quotient is the one `%` produces. */
  lemma ModUnique(a: int, len: nat, q: int, m: int)
    requires len > 0 && 0 <= m < len && a == q * len + m
    ensures a % len == m
  {
    var q', m' := a / len, a % len;
    assert q' * len + m' == a;
    var d := q - q';
    assert d * len == q * len - q' * len;
    assert d * len == m' - m;
    if d >= 1 {
      MulAtLeast(d, len);
    } else if d <= -1 {
      MulAtLeast(-d, len);
    }
  }

  /** Stepping forward by one in Euclidean remainders wraps from `len - 1`
      to 0. */
  lemma ModSucc(a: int, len: nat)
    requires len > 0
    ensures (a + 1) % len == if a % len < len - 1 then a % len + 1 else 0
  {
    var q, m := a / len, a % len;
    if m < len - 1 {
      ModUnique(a + 1, len, q, m + 1);
    } else {
      ModUnique(a + 1, len, q + 1, 0);
    }
  }

  /** Stepping backward by one in Euclidean remainders wraps from 0 to
      `len - 1`. */
  lemma ModPred(a: int, len: nat)
    requires len > 0
    ensures (a - 1) % len == if a % len > 0 then a % len - 1 else len - 1
  {
    var q, m := a / len, a % len;
    if m > 0 {
      ModUnique(a - 1, len, q, m - 1);
    } else {
      ModUnique(a - 1, len, q - 1, len - 1);
    }
  }

  /** Pressing `next` `k` times from a valid index walks the playlist as a
      cycle: it lands `k` places further on, modulo the length. */
  lemma {:induction false} NextTimesIsModular(len: nat, i: int, k: nat)
    requires 0 <= i < len
    ensures NextTimes(len, i, k) == (i + k) % len
    decreases k
  {
    if k > 0 {
      var a := i + (k - 1);
      NextTimesIsModular(len, i, k - 1);
      ModSucc(a, len);
      assert i + k == a + 1;
    }
  }

  /** Pressing `previous` `k` times from a valid index lands `k` places
      earlier, modulo the length. */
  lemma {:induction false} PrevTimesIsModular(len: nat, i: int, k: nat)
    requires 0 <= i < len
    ensures PrevTimes(len, i, k) == (i - k) % len
    decreases k
  {
    if k > 0 {
      var a := i - (k - 1);
      PrevTimesIsModular(len, i, k - 1);
      ModPred(a, len);
      assert i - k == a - 1;
    }
  }

  /** A full lap of `next` presses returns to the starting entry. */
  lemma NextFullLap(len: nat, i: int)
    requires 0 <= i < len
    ensures NextTimes(len, i, len) == i
  {
    NextTimesIsModular(len, i, len);
    ModUnique(i + len, len, 1, i);
  }
}
