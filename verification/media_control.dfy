/** The pure parts of the media-control bar: the `m:ss` time formatter, the
    "next up" window over the queue, and the rule that highlights lyric lines.
    src/components/MediaControl.tsx and its older variant
    src/components/mediacontrol.tsx define the formatter and the highlight
    rule identically; they are defined once here. */
module MediaControl {
  import opened Seqs
  import opened Text
  import opened Music
  import LyricSync

  /** `Math.trunc`. */
  function Trunc(x: real): int
  {
    if x >= 0.0 then x.Floor else -((-x).Floor)
  }

  /** JavaScript's `%` on numbers: the remainder has the sign of the dividend. */
  function JsRem(x: real, y: real): real
    requires y != 0.0
  {
    x - y * Trunc(x / y) as real
  }

  /** `s.padStart(2, '0')`. */
  function PadStart2(s: string): (r: string)
    ensures |s| >= 2 ==> r == s
    ensures |s| < 2 ==> |r| == 2 && r[2 - |s|..] == s && forall k :: 0 <= k < 2 - |s| ==> r[k] == '0'
  {
    if |s| >= 2 then s else if |s| == 1 then "0" + s else "00"
  }

  /** `mins` of `formatTime`: `Math.floor(seconds / 60)`. */
  function Minutes(seconds: real): int
  {
    (seconds / 60.0).Floor
  }

  /** `secs` of `formatTime`: `Math.floor(seconds % 60)`. */
  function Seconds(seconds: real): int
  {
    JsRem(seconds, 60.0).Floor
  }

  /** `formatTime`: minutes, a colon, then the seconds padded to two digits.
      For a non-negative time the label is digits, a colon and exactly two
      digits. */
  function FormatTime(seconds: real): (r: string)
    ensures seconds >= 0.0 ==>
      && |r| >= 4 && r[|r| - 3] == ':'
      && AllDigits(r[..|r| - 3]) && AllDigits(r[|r| - 2..])
  {
    var m, s := Minutes(seconds), Seconds(seconds);
    assert seconds >= 0.0 ==> m >= 0 && 0 <= s < 60 by {
      if seconds >= 0.0 {
        FormatTimeFields(seconds);
      }
    }
    assert seconds >= 0.0 ==> ClockShape(IntToString(m) + ":" + PadStart2(IntToString(s)), m, s) by {
      if seconds >= 0.0 {
        ClockLabel(m, s);
      }
    }
    IntToString(m) + ":" + PadStart2(IntToString(s))
  }

  /** `text` is `m:ss` for the whole numbers `m` and `s`. */
  ghost predicate ClockShape(text: string, m: nat, s: nat)
  {
    && |text| >= 4 && text[|text| - 3] == ':'
    && text[..|text| - 3] == NatToString(m) && text[|text| - 2..] == PadStart2(NatToString(s))
    && AllDigits(text[..|text| - 3]) && AllDigits(text[|text| - 2..])
  }

  /** The label printed for `m` minutes and `s < 60` seconds has the shape
      `m:ss`. */
  lemma ClockLabel(m: int, s: int)
    requires m >= 0 && 0 <= s < 60
    ensures ClockShape(IntToString(m) + ":" + PadStart2(IntToString(s)), m, s)
  {
    var a, b := NatToString(m), PadStart2(NatToString(s));
    assert IntToString(m) == a && IntToString(s) == NatToString(s);
    assert |b| == 2 && AllDigits(b) by {
      PaddedSecondsRoundTrip(s);
    }
    var text := a + ":" + b;
    assert |text| == |a| + 3 && text[|text| - 3] == ':';
    assert text[..|text| - 3] == a;
    assert text[|text| - 2..] == b;
  }

  /** The inverse reading of an `m:ss` label as a number of whole seconds:
      digits, a colon, exactly two digits. */
  function ParseClock(text: string): (r: Option<int>)
  {
    if |text| >= 4 && text[|text| - 3] == ':' && AllDigits(text[..|text| - 3]) && AllDigits(text[|text| - 2..])
    then Some(60 * ParseDigits(text[..|text| - 3]) + ParseDigits(text[|text| - 2..]))
    else None
  }

  /** For a non-negative time the two fields split its whole seconds: the
      minutes are unbounded, the seconds lie in [0, 60). */
  lemma FormatTimeFields(seconds: real)
    requires seconds >= 0.0
    ensures Minutes(seconds) >= 0
    ensures 0 <= Seconds(seconds) < 60
    ensures 60 * Minutes(seconds) + Seconds(seconds) == seconds.Floor
  {
    var m := Minutes(seconds);
    assert m as real <= seconds / 60.0 < m as real + 1.0;
    assert 60.0 * m as real <= seconds < 60.0 * m as real + 60.0;
    assert Trunc(seconds / 60.0) == m;
    var rem := seconds - 60.0 * m as real;
    assert JsRem(seconds, 60.0) == rem;
  }

  /** A one- or two-digit number padded to two characters reads back as
      itself. */
  lemma {:induction false} PaddedSecondsRoundTrip(n: nat)
    requires n < 60
    ensures var p := PadStart2(NatToString(n)); |p| == 2 && AllDigits(p) && ParseDigits(p) == n
  {
    NatToStringRoundTrip(n);
    if n < 10 {
      var p := PadStart2(NatToString(n));
      assert p == ['0', DigitChar(n)];
      assert p[..1] == "0";
    } else {
      assert NatToString(n) == NatToString(n / 10) + [DigitChar(n % 10)];
    }
  }

  /** For a non-negative time the label has the shape `m:ss`: unpadded
      minutes, a colon, exactly two digits of seconds. */
  lemma FormatTimeShape(seconds: real)
    requires seconds >= 0.0
    ensures var text := FormatTime(seconds);
      && |text| >= 4
      && text == NatToString(Minutes(seconds)) + ":" + text[|text| - 2..]
      && AllDigits(text[|text| - 2..])
  {
    FormatTimeFields(seconds);
    PaddedSecondsRoundTrip(Seconds(seconds));
  }

  /** For a non-negative time the label's two fields are the printed
      minutes and the padded seconds. */
  lemma FormatTimeParts(seconds: real)
    requires seconds >= 0.0
    ensures ClockShape(FormatTime(seconds), Minutes(seconds), Seconds(seconds))
  {
    FormatTimeFields(seconds);
    ClockLabel(Minutes(seconds), Seconds(seconds));
  }

  /** Reading a label back gives the whole seconds it was made from. */
  lemma FormatTimeRoundTrip(seconds: real)
    requires seconds >= 0.0
    ensures ParseClock(FormatTime(seconds)) == Some(seconds.Floor)
  {
    FormatTimeFields(seconds);
    FormatTimeParts(seconds);
    var m, s := Minutes(seconds), Seconds(seconds);
    var text := FormatTime(seconds);
    assert ParseDigits(text[..|text| - 3]) == m by {
      NatToStringRoundTrip(m);
    }
    assert ParseDigits(text[|text| - 2..]) == s by {
      PaddedSecondsRoundTrip(s);
    }
    assert ParseClock(text) == Some(60 * m + s);
  }

  /** Minutes are never padded: from one minute on, the label does not start
      with `0`. */
  lemma MinutesUnpadded(seconds: real)
    requires seconds >= 60.0
    ensures FormatTime(seconds)[0] != '0'
  {
    FormatTimeFields(seconds);
    NatToStringNoLeadingZero(Minutes(seconds));
  }

  lemma FormatTimeExamples()
    ensures FormatTime(0.0) == "0:00"
    ensures FormatTime(60.0) == "1:00"
    ensures FormatTime(125.5) == "2:05"
  {
    assert Minutes(125.5) == 2;
    assert Seconds(125.5) == 5;
  }

  /** `queue?.slice(1, 6) || []`: up to five queued songs after the head; an
      absent queue gives none (an empty slice is still truthy). */
  function NextUpSongs<T>(queue: Option<seq<T>>): (r: seq<T>)
    ensures |r| <= 5
    ensures queue.None? || |queue.value| <= 1 ==> r == []
    ensures queue.Some? && |queue.value| > 1 ==> |r| == if |queue.value| <= 6 then |queue.value| - 1 else 5
    ensures queue.Some? ==> forall k :: 0 <= k < |r| ==> r[k] == queue.value[k + 1]
  {
    match queue
    case None => []
    case Some(q) =>
      if |q| <= 1 then [] else q[1..if |q| <= 6 then |q| else 6]
  }

  /** As written: a lyric line is highlighted when its text equals the text
      of the current line, so with no current line nothing is. */
  predicate IsHighlighted(current: Option<LyricLine>, line: LyricLine): (b: bool)
    ensures current.None? ==> !b
    ensures current == Some(line) ==> b
  {
    current.Some? && current.value.text == line.text
  }

  /** The highlight at a playback position, line by line: line `j` is lit
      exactly when it has the text of the line the synchroniser chose (the
      last one that has started). The chosen line is always lit, and nothing
      is lit before the first line starts. */
  lemma HighlightRule(lyrics: seq<LyricLine>, currentTime: real)
    ensures var current := LyricSync.CurrentLyricLine(lyrics, currentTime);
      forall j :: 0 <= j < |lyrics| ==>
        (IsHighlighted(current, lyrics[j]) <==>
         exists i :: LyricSync.IsLastStarted(lyrics, LyricSync.ToMillis(currentTime), i) && lyrics[i].text == lyrics[j].text)
    ensures forall i :: LyricSync.IsLastStarted(lyrics, LyricSync.ToMillis(currentTime), i) ==>
      IsHighlighted(LyricSync.CurrentLyricLine(lyrics, currentTime), lyrics[i])
    ensures (forall j :: 0 <= j < |lyrics| ==> !LyricSync.Started(lyrics[j], LyricSync.ToMillis(currentTime))) ==>
      forall j :: 0 <= j < |lyrics| ==> !IsHighlighted(LyricSync.CurrentLyricLine(lyrics, currentTime), lyrics[j])
  {
    var ms := LyricSync.ToMillis(currentTime);
    var current := LyricSync.CurrentLyricLine(lyrics, currentTime);
    if current.Some? {
      var i0 :| LyricSync.IsLastStarted(lyrics, ms, i0) && lyrics[i0] == current.value;
      forall i | LyricSync.IsLastStarted(lyrics, ms, i)
        ensures i == i0
      {
        LyricSync.LastStartedUnique(lyrics, ms, i, i0);
      }
    } else {
      forall i | LyricSync.IsLastStarted(lyrics, ms, i)
        ensures false
      {
      }
    }
  }

  /** A repeated line is highlighted at every occurrence: at 2.5 s in
      `la / x / la`, both `la` lines are lit although only the second has
      been reached last. */
  lemma RepeatedLineHighlightedTwice()
    ensures var lyrics := [LyricLine(0, "la"), LyricLine(1000, "x"), LyricLine(2000, "la")];
      var current := LyricSync.CurrentLyricLine(lyrics, 2.5);
      && current == Some(lyrics[2])
      && IsHighlighted(current, lyrics[0])
      && IsHighlighted(current, lyrics[2])
  {
    var lyrics := [LyricLine(0, "la"), LyricLine(1000, "x"), LyricLine(2000, "la")];
    assert LyricSync.ScanBack(lyrics, LyricSync.ToMillis(2.5), 3) == Some(2);
  }

  /** The corrected rule: a line is highlighted when it is the line the
      synchroniser chose, identified by position. */
  predicate IsCurrentLine(lyrics: seq<LyricLine>, currentTime: real, j: int)
  {
    && 0 <= j < |lyrics|
    && LyricSync.ScanBack(lyrics, LyricSync.ToMillis(currentTime), |lyrics|) == Some(j)
  }

  /** Under the corrected rule exactly one line is lit once any line has
      started, and none before; repeated text no longer matters. */
  lemma CurrentLineUnique(lyrics: seq<LyricLine>, currentTime: real)
    ensures LyricSync.CurrentLyricLine(lyrics, currentTime).Some? ==>
      exists j :: IsCurrentLine(lyrics, currentTime, j) && lyrics[j] == LyricSync.CurrentLyricLine(lyrics, currentTime).value
    ensures forall i, j :: IsCurrentLine(lyrics, currentTime, i) && IsCurrentLine(lyrics, currentTime, j) ==> i == j
    ensures LyricSync.CurrentLyricLine(lyrics, currentTime).None? ==> forall j :: !IsCurrentLine(lyrics, currentTime, j)
    ensures forall j :: IsCurrentLine(lyrics, currentTime, j) <==> LyricSync.IsLastStarted(lyrics, LyricSync.ToMillis(currentTime), j)
  {
    var ms := LyricSync.ToMillis(currentTime);
    if LyricSync.CurrentLyricLine(lyrics, currentTime).Some? {
      var j := LyricSync.ScanBack(lyrics, ms, |lyrics|).value;
      assert IsCurrentLine(lyrics, currentTime, j);
    }
    forall j | LyricSync.IsLastStarted(lyrics, ms, j)
      ensures IsCurrentLine(lyrics, currentTime, j)
    {
      var r := LyricSync.ScanBack(lyrics, ms, |lyrics|);
      assert r.Some?;
      assert LyricSync.IsLastStarted(lyrics, ms, r.value);
      LyricSync.LastStartedUnique(lyrics, ms, j, r.value);
    }
  }

  /** On `la / x / la` at 2.5 s the corrected rule lights only the second
      `la`, while the text comparison also lights the first. */
  lemma RepeatedLineLitOnce()
    ensures var lyrics := [LyricLine(0, "la"), LyricLine(1000, "x"), LyricLine(2000, "la")];
      && IsCurrentLine(lyrics, 2.5, 2)
      && !IsCurrentLine(lyrics, 2.5, 0)
      && IsHighlighted(LyricSync.CurrentLyricLine(lyrics, 2.5), lyrics[0])
  {
    var lyrics := [LyricLine(0, "la"), LyricLine(1000, "x"), LyricLine(2000, "la")];
    assert LyricSync.ScanBack(lyrics, LyricSync.ToMillis(2.5), 3) == Some(2);
  }
}
