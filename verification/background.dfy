/** The colour logic of the ambient background (src/contexts/BackgroundContext.tsx):
    printing a colour as `rgb(r, g, b)`, reading the three numbers back out
    with the pattern `/rgb\((\d+),\s*(\d+),\s*(\d+)\)/`, the brightness and
    saturation filter over an extracted palette, and which theme variables
    are written. Palette extraction itself belongs to an image library and
    arrives as a parameter. */
module Background {
  import opened Seqs
  import opened Text

  /** A palette entry `[r, g, b]`. */
  datatype Rgb = Rgb(r: int, g: int, b: int)

  /** The three numbers captured by one match of the pattern. */
  datatype RgbMatch = RgbMatch(red: string, green: string, blue: string)

  /** The dark violet theme the provider starts with and resets to. */
  const DefaultColors: seq<string> := ["rgb(30, 10, 60)", "rgb(15, 5, 40)", "rgb(45, 20, 80)"]

  /** The theme used whenever loading or reading the artwork fails. */
  const FallbackColors: seq<string> := ["rgb(20, 15, 35)", "rgb(35, 25, 55)", "rgb(45, 35, 65)"]

  /** What `extractRGB` returns when nothing matches. */
  const NoMatchTriplet: string := "108, 0, 162"

  /** `rgbToString`: the CSS functional notation, `rgb(` then the three
      components separated by `, `, then `)`. */
  function RgbToString(c: Rgb): (r: string)
    ensures |r| >= 5 && r[..4] == "rgb(" && r[|r| - 1] == ')'
    ensures r[4..|r| - 1] == RgbTriplet(c)
  {
    "rgb(" + IntToString(c.r) + ", " + IntToString(c.g) + ", " + IntToString(c.b) + ")"
  }

  /** The `r, g, b` form a CSS variable holds for a colour. */
  function RgbTriplet(c: Rgb): string
  {
    IntToString(c.r) + ", " + IntToString(c.g) + ", " + IntToString(c.b)
  }

  /** The characters `\s` matches in a JavaScript regular expression. */
  predicate IsSpace(c: char)
  {
    || c == ' ' || c == '\t' || c == '\n' || c == '\r' || c == '\U{000B}' || c == '\U{000C}'
    || c == '\U{00A0}' || c == '\U{1680}' || ('\U{2000}' <= c <= '\U{200A}')
    || c == '\U{2028}' || c == '\U{2029}' || c == '\U{202F}' || c == '\U{205F}'
    || c == '\U{3000}' || c == '\U{FEFF}'
  }

  /** Length of the longest run of digits starting at `i`. */
  function DigitRun(s: string, i: nat): (n: nat)
    requires i <= |s|
    ensures i + n <= |s|
    ensures i + n < |s| ==> !IsDigit(s[i + n])
    decreases |s| - i
  {
    if i < |s| && IsDigit(s[i]) then 1 + DigitRun(s, i + 1) else 0
  }

  /** Every character of the run is a digit. */
  lemma {:induction false} DigitRunDigits(s: string, i: nat)
    requires i <= |s|
    ensures forall k :: i <= k < i + DigitRun(s, i) ==> IsDigit(s[k])
    decreases |s| - i
  {
    if i < |s| && IsDigit(s[i]) {
      DigitRunDigits(s, i + 1);
    }
  }

  /** Length of the longest run of `\s` characters starting at `i`. */
  function SpaceRun(s: string, i: nat): (n: nat)
    requires i <= |s|
    ensures i + n <= |s|
    ensures i + n < |s| ==> !IsSpace(s[i + n])
    decreases |s| - i
  {
    if i < |s| && IsSpace(s[i]) then 1 + SpaceRun(s, i + 1) else 0
  }

  /** One element of a pattern: a literal character, a captured `(\d+)`,
      or `\s*`. */
  datatype Token = Char(c: char) | Digits | Blanks

  /** A pattern: a list of tokens matched one after another. */
  datatype Pattern = End | Then(token: Token, rest: Pattern)

  /** `(\d+)\)`: the last number and the closing parenthesis. */
  const LastNumber: Pattern := Then(Digits, Then(Char(')'), End))

  /** `(\d+),\s*(\d+)\)`. */
  const MiddleNumber: Pattern := Then(Digits, Then(Char(','), Then(Blanks, LastNumber)))

  /** `(\d+),\s*(\d+),\s*(\d+)\)`: everything after the opening literal. */
  const Numbers: Pattern := Then(Digits, Then(Char(','), Then(Blanks, MiddleNumber)))

  /** The pattern `/rgb\((\d+),\s*(\d+),\s*(\d+)\)/` of `extractRGB`. */
  const RgbPattern: Pattern := Then(Char('r'), Then(Char('g'), Then(Char('b'), Then(Char('('), Numbers))))

  /** The number of capture groups in a pattern. */
  function Groups(pat: Pattern): nat
  {
    match pat
    case End => 0
    case Then(t, rest) => (if t.Digits? then 1 else 0) + Groups(rest)
  }

  /** Matches `pat` anchored at offset `p`, taking every `\d+` and `\s*` as
      long as it goes, and returns the captured digit strings. For an
      unambiguous pattern such as `RgbPattern` this is exactly the regular
      expression's anchored match (see `ScanIsRegexMatch`). */
  function Scan(s: string, p: nat, pat: Pattern): (r: Option<seq<string>>)
    requires p <= |s|
    ensures r.Some? ==> |r.value| == Groups(pat)
    decreases pat
  {
    match pat
    case End => Some([])
    case Then(Char(c), rest) =>
      if p < |s| && s[p] == c then Scan(s, p + 1, rest) else None
    case Then(Blanks, rest) => Scan(s, p + SpaceRun(s, p), rest)
    case Then(Digits, rest) =>
      var n := DigitRun(s, p);
      if n == 0 then None
      else
        match Scan(s, p + n, rest)
        case None => None
        case Some(g) => Some([s[p..p + n]] + g)
  }

  /** The pattern matched at offset `k`, with its three groups. */
  function MatchAt(s: string, k: nat): (r: Option<RgbMatch>)
    requires k <= |s|
  {
    assert Groups(MiddleNumber) == 2;
    assert Groups(RgbPattern) == 3;
    match Scan(s, k, RgbPattern)
    case None => None
    case Some(g) => Some(RgbMatch(g[0], g[1], g[2]))
  }

  /** Every group `Scan` captures is a non-empty run of digits. */
  lemma {:induction false} ScanCapturesDigits(s: string, p: nat, pat: Pattern)
    requires p <= |s| && Scan(s, p, pat).Some?
    ensures forall i :: 0 <= i < |Scan(s, p, pat).value| ==>
      |Scan(s, p, pat).value[i]| > 0 && AllDigits(Scan(s, p, pat).value[i])
    decreases pat
  {
    match pat
    case End =>
    case Then(Char(c), rest) =>
      ScanCapturesDigits(s, p + 1, rest);
    case Then(Blanks, rest) =>
      ScanCapturesDigits(s, p + SpaceRun(s, p), rest);
    case Then(Digits, rest) =>
      var n := DigitRun(s, p);
      ScanCapturesDigits(s, p + n, rest);
      DigitRunDigits(s, p);
      var g := Scan(s, p + n, rest).value;
      assert Scan(s, p, pat).value == [s[p..p + n]] + g;
      var e := p + n;
      forall k | 0 <= k < n
        ensures IsDigit(s[p..e][k])
      {
        assert s[p..e][k] == s[p + k];
      }
  }

  /** Every group of a match is a non-empty run of digits. */
  lemma MatchCapturesDigits(s: string, k: nat)
    requires k <= |s| && MatchAt(s, k).Some?
    ensures var m := MatchAt(s, k).value;
      && |m.red| > 0 && AllDigits(m.red)
      && |m.green| > 0 && AllDigits(m.green)
      && |m.blue| > 0 && AllDigits(m.blue)
  {
    ScanCapturesDigits(s, k, RgbPattern);
    assert Groups(MiddleNumber) == 2;
    var g := Scan(s, k, RgbPattern).value;
    assert |g| == 3 && MatchAt(s, k).value == RgbMatch(g[0], g[1], g[2]);
  }

  /** The literal `rgb(` starts at offset `k`. */
  predicate OpensAt(s: string, k: nat)
  {
    k + 4 <= |s| && s[k] == 'r' && s[k + 1] == 'g' && s[k + 2] == 'b' && s[k + 3] == '('
  }

  /** The pattern can match only where the literal `rgb(` starts, and there
      it goes on with the numbers. */
  lemma ScanOpening(s: string, k: nat)
    requires k <= |s|
    ensures !OpensAt(s, k) ==> Scan(s, k, RgbPattern).None?
    ensures OpensAt(s, k) ==> Scan(s, k, RgbPattern) == Scan(s, k + 4, Numbers)
  {
    var p3 := Then(Char('('), Numbers);
    var p2 := Then(Char('b'), p3);
    var p1 := Then(Char('g'), p2);
    assert RgbPattern == Then(Char('r'), p1);
    if k < |s| && s[k] == 'r' {
      assert Scan(s, k, RgbPattern) == Scan(s, k + 1, p1);
      if k + 1 < |s| && s[k + 1] == 'g' {
        assert Scan(s, k + 1, p1) == Scan(s, k + 2, p2);
        if k + 2 < |s| && s[k + 2] == 'b' {
          assert Scan(s, k + 2, p2) == Scan(s, k + 3, p3);
        }
      }
    }
  }

  // ---------------------------------------------------------------------
  // The regular expression's own semantics

  /** Offsets `p` up to `p + n` hold only digits. */
  ghost predicate DigitsAt(s: string, p: nat, n: nat)
  {
    p + n <= |s| && forall k :: p <= k < p + n ==> IsDigit(s[k])
  }

  /** Offsets `p` up to `p + n` hold only `\s` characters. */
  ghost predicate BlanksAt(s: string, p: nat, n: nat)
  {
    p + n <= |s| && forall k :: p <= k < p + n ==> IsSpace(s[k])
  }

  /** A backtracking regular-expression match of `pat` anchored at `p`,
      capturing `g`: a `\d+` may take any non-empty run of digits and a
      `\s*` any run of blanks, as long as the rest of the pattern then
      matches. Nothing is required after the pattern ends. */
  ghost predicate RegexMatch(s: string, p: nat, pat: Pattern, g: seq<string>)
    requires p <= |s|
    decreases pat
  {
    match pat
    case End => g == []
    case Then(Char(c), rest) => p < |s| && s[p] == c && RegexMatch(s, p + 1, rest, g)
    case Then(Blanks, rest) =>
      exists n: nat :: BlanksAt(s, p, n) && RegexMatch(s, p + n, rest, g)
    case Then(Digits, rest) =>
      exists n: nat :: n > 0 && DigitsAt(s, p, n) && |g| > 0 && g[0] == s[p..p + n] && RegexMatch(s, p + n, rest, g[1..])
  }

  /** No run can be shortened or lengthened and still match: every `\d+` is
      followed by a literal that is not a digit, and every `\s*` by a `\d+`
      or by a literal that is not a blank. */
  predicate Unambiguous(pat: Pattern)
  {
    match pat
    case End => true
    case Then(Char(_), rest) => Unambiguous(rest)
    case Then(Digits, rest) =>
      rest.Then? && rest.token.Char? && !IsDigit(rest.token.c) && Unambiguous(rest)
    case Then(Blanks, rest) =>
      rest.Then? && (rest.token.Digits? || (rest.token.Char? && !IsSpace(rest.token.c))) && Unambiguous(rest)
  }

  /** A digit run ended by the end of the string or a non-digit is the
      longest run. */
  lemma {:induction false} DigitRunExact(s: string, p: nat, n: nat)
    requires DigitsAt(s, p, n)
    requires p + n == |s| || !IsDigit(s[p + n])
    ensures DigitRun(s, p) == n
    decreases n
  {
    if n > 0 {
      DigitRunExact(s, p + 1, n - 1);
    }
  }

  /** A blank run ended by the end of the string or a non-blank is the
      longest run. */
  lemma {:induction false} SpaceRunExact(s: string, p: nat, n: nat)
    requires BlanksAt(s, p, n)
    requires p + n == |s| || !IsSpace(s[p + n])
    ensures SpaceRun(s, p) == n
    decreases n
  {
    if n > 0 {
      SpaceRunExact(s, p + 1, n - 1);
    }
  }

  /** What the greedy scan captures is a regular-expression match. */
  lemma {:induction false} ScanSound(s: string, p: nat, pat: Pattern)
    requires p <= |s| && Scan(s, p, pat).Some?
    ensures RegexMatch(s, p, pat, Scan(s, p, pat).value)
    decreases pat
  {
    match pat
    case End =>
    case Then(Char(c), rest) =>
      ScanSound(s, p + 1, rest);
    case Then(Blanks, rest) =>
      var n := SpaceRun(s, p);
      ScanSound(s, p + n, rest);
      SpaceRunBlanks(s, p);
    case Then(Digits, rest) =>
      var n := DigitRun(s, p);
      ScanSound(s, p + n, rest);
      DigitRunDigits(s, p);
      assert DigitsAt(s, p, n);
      assert Scan(s, p, pat).value[1..] == Scan(s, p + n, rest).value;
  }

  /** For an unambiguous pattern every regular-expression match is the one
      the greedy scan finds. */
  lemma {:induction false} ScanComplete(s: string, p: nat, pat: Pattern, g: seq<string>)
    requires p <= |s| && Unambiguous(pat) && RegexMatch(s, p, pat, g)
    ensures Scan(s, p, pat) == Some(g)
    decreases pat, 1
  {
    match pat
    case End =>
    case Then(Char(c), rest) =>
      ScanComplete(s, p + 1, rest, g);
    case Then(Blanks, rest) =>
      BlanksComplete(s, p, rest, g);
    case Then(Digits, rest) =>
      DigitsComplete(s, p, rest, g);
  }

  /** `\s*` then `rest`: the regular expression's run of blanks is the
      longest one. */
  lemma {:induction false} BlanksComplete(s: string, p: nat, rest: Pattern, g: seq<string>)
    requires p <= |s| && Unambiguous(Then(Blanks, rest)) && RegexMatch(s, p, Then(Blanks, rest), g)
    ensures Scan(s, p, Then(Blanks, rest)) == Some(g)
    decreases Then(Blanks, rest), 0
  {
    var m: nat :| BlanksAt(s, p, m) && RegexMatch(s, p + m, rest, g);
    BlankRunEnds(s, p + m, rest, g);
    SpaceRunExact(s, p, m);
    ScanComplete(s, p + m, rest, g);
    ScanSkipsBlanks(s, p, rest);
  }

  /** `\s*` consumes the whole run of blanks before the rest is scanned. */
  lemma ScanSkipsBlanks(s: string, p: nat, rest: Pattern)
    requires p <= |s|
    ensures Scan(s, p, Then(Blanks, rest)) == Scan(s, p + SpaceRun(s, p), rest)
  {
  }

  /** `(\d+)` then `rest`: the regular expression's run of digits is the
      longest one, and it is the first group. */
  lemma {:induction false} DigitsComplete(s: string, p: nat, rest: Pattern, g: seq<string>)
    requires p <= |s| && Unambiguous(Then(Digits, rest)) && RegexMatch(s, p, Then(Digits, rest), g)
    ensures Scan(s, p, Then(Digits, rest)) == Some(g)
    decreases Then(Digits, rest), 0
  {
    var m: nat :| m > 0 && DigitsAt(s, p, m) && |g| > 0 && g[0] == s[p..p + m] && RegexMatch(s, p + m, rest, g[1..]);
    DigitRunEnds(s, p + m, rest, g[1..]);
    DigitRunExact(s, p, m);
    ScanComplete(s, p + m, rest, g[1..]);
    assert g == [g[0]] + g[1..];
  }

  /** What follows a `\d+` in an unambiguous pattern is a literal that is
      not a digit, so a match of it starts at a non-digit. */
  lemma DigitRunEnds(s: string, q: nat, rest: Pattern, g: seq<string>)
    requires q <= |s| && rest.Then? && rest.token.Char? && !IsDigit(rest.token.c)
    requires RegexMatch(s, q, rest, g)
    ensures q < |s| && !IsDigit(s[q])
  {
  }

  /** What follows a `\s*` in an unambiguous pattern cannot start with a
      blank, so a match of it starts at a non-blank. */
  lemma BlankRunEnds(s: string, q: nat, rest: Pattern, g: seq<string>)
    requires q <= |s| && rest.Then? && RegexMatch(s, q, rest, g)
    requires rest.token.Digits? || (rest.token.Char? && !IsSpace(rest.token.c))
    ensures q < |s| && !IsSpace(s[q])
  {
    if rest.token.Digits? {
      var d: nat :| d > 0 && DigitsAt(s, q, d) && |g| > 0 && g[0] == s[q..q + d] && RegexMatch(s, q + d, rest.rest, g[1..]);
      assert IsDigit(s[q]);
    }
  }

  /** For an unambiguous pattern the greedy scan is the regular expression:
      what it captures is a regular-expression match, and any
      regular-expression match is the one it finds. */
  lemma ScanIsRegexMatch(s: string, p: nat, pat: Pattern)
    requires p <= |s| && Unambiguous(pat)
    ensures Scan(s, p, pat).Some? ==> RegexMatch(s, p, pat, Scan(s, p, pat).value)
    ensures forall g :: RegexMatch(s, p, pat, g) ==> Scan(s, p, pat) == Some(g)
  {
    if Scan(s, p, pat).Some? {
      ScanSound(s, p, pat);
    }
    forall g | RegexMatch(s, p, pat, g)
      ensures Scan(s, p, pat) == Some(g)
    {
      ScanComplete(s, p, pat, g);
    }
  }

  /** Every character of a blank run is a blank. */
  lemma {:induction false} SpaceRunBlanks(s: string, p: nat)
    requires p <= |s|
    ensures BlanksAt(s, p, SpaceRun(s, p))
    decreases |s| - p
  {
    if p < |s| && IsSpace(s[p]) {
      SpaceRunBlanks(s, p + 1);
    }
  }

  /** The `extractRGB` pattern is unambiguous, so its greedy scan at an
      offset matches exactly when the regular expression does, with the
      same three groups. */
  lemma MatchAtIsRegexMatch(s: string, k: nat)
    requires k <= |s|
    ensures MatchAt(s, k).Some? <==> exists g :: RegexMatch(s, k, RgbPattern, g)
    ensures forall g :: RegexMatch(s, k, RgbPattern, g) ==>
      |g| == 3 && MatchAt(s, k) == Some(RgbMatch(g[0], g[1], g[2]))
  {
    assert Unambiguous(RgbPattern);
    ScanIsRegexMatch(s, k, RgbPattern);
    assert Groups(MiddleNumber) == 2;
    assert Groups(RgbPattern) == 3;
    if MatchAt(s, k).Some? {
      assert RegexMatch(s, k, RgbPattern, Scan(s, k, RgbPattern).value);
    }
  }

  /** `String.prototype.match` without the global flag: the offset of the
      leftmost match at or after offset `k`. */
  function FirstMatch(s: string, k: nat): (r: Option<nat>)
    requires k <= |s|
    ensures r.None? ==> forall j :: k <= j <= |s| ==> MatchAt(s, j).None?
    ensures r.Some? ==> k <= r.value <= |s| && MatchAt(s, r.value).Some?
    ensures r.Some? ==> forall i :: k <= i < r.value ==> MatchAt(s, i).None?
    decreases |s| - k
  {
    if MatchAt(s, k).Some? then Some(k)
    else if k == |s| then None
    else FirstMatch(s, k + 1)
  }

  /** The three captured numbers joined by `, `. */
  function Joined(m: RgbMatch): string
  {
    m.red + ", " + m.green + ", " + m.blue
  }

  /** An `r, g, b` value as the CSS variables hold it: three non-empty digit
      strings joined by `, `. */
  ghost predicate IsDigitTriplet(t: string)
  {
    exists m: RgbMatch ::
      && |m.red| > 0 && AllDigits(m.red) && |m.green| > 0 && AllDigits(m.green)
      && |m.blue| > 0 && AllDigits(m.blue) && t == Joined(m)
  }

  /** `extractRGB`: the three numbers of the leftmost `rgb(...)` in the
      string joined by `, `, or the violet default when there is none.
      Whatever the input, the result is a triplet of digit strings. */
  function ExtractRgb(text: string): (r: string)
    ensures IsDigitTriplet(r)
  {
    match FirstMatch(text, 0)
    case None =>
      assert NoMatchTriplet == Joined(RgbMatch("108", "0", "162"));
      NoMatchTriplet
    case Some(j) =>
      MatchCapturesDigits(text, j);
      Joined(MatchAt(text, j).value)
  }

  /** With no match anywhere `extractRGB` gives the default; otherwise it
      gives the numbers of the leftmost match. */
  lemma ExtractRgbLeftmost(text: string)
    ensures (forall j :: 0 <= j <= |text| ==> MatchAt(text, j).None?) ==> ExtractRgb(text) == NoMatchTriplet
    ensures (exists j :: 0 <= j <= |text| && MatchAt(text, j).Some?) ==>
      exists j :: 0 <= j <= |text| && MatchAt(text, j).Some? &&
        (forall i :: 0 <= i < j ==> MatchAt(text, i).None?) &&
        ExtractRgb(text) == MatchAt(text, j).value.red + ", " + MatchAt(text, j).value.green + ", " + MatchAt(text, j).value.blue
  {
    var first := FirstMatch(text, 0);
    if first.Some? {
      var j := first.value;
      assert ExtractRgb(text) == MatchAt(text, j).value.red + ", " + MatchAt(text, j).value.green + ", " + MatchAt(text, j).value.blue;
    }
  }

  /** The digits of `d`, laid out in `s` from offset `i`. */
  predicate LaidOut(s: string, i: nat, d: string)
  {
    i + |d| <= |s| && forall k :: 0 <= k < |d| ==> s[i + k] == d[k]
  }

  /** A digit string laid out at `i` and followed by a non-digit is exactly
      the longest digit run there. */
  lemma {:induction false} DigitRunOver(s: string, i: nat, d: string)
    requires LaidOut(s, i, d) && AllDigits(d)
    requires i + |d| < |s| && !IsDigit(s[i + |d|])
    ensures DigitRun(s, i) == |d|
    decreases |d|
  {
    if |d| > 0 {
      assert s[i] == d[0];
      assert LaidOut(s, i + 1, d[1..]) by {
        forall k | 0 <= k < |d[1..]|
          ensures s[i + 1 + k] == d[1..][k]
        {
          assert s[i + (k + 1)] == d[k + 1];
        }
      }
      DigitRunOver(s, i + 1, d[1..]);
    }
  }

  /** A non-empty digit string laid out at `p` and followed by `close` is
      captured as exactly that string, ahead of what the rest captures after
      `close`. */
  lemma ScanNumber(s: string, p: nat, d: string, close: char, rest: Pattern, g: seq<string>)
    requires LaidOut(s, p, d) && |d| > 0 && AllDigits(d)
    requires p + |d| < |s| && s[p + |d|] == close && !IsDigit(close)
    requires Scan(s, p + |d| + 1, rest) == Some(g)
    ensures Scan(s, p, Then(Digits, Then(Char(close), rest))) == Some([d] + g)
  {
    assert DigitRun(s, p) == |d| by {
      DigitRunOver(s, p, d);
    }
    assert s[p..p + |d|] == d;
    assert Scan(s, p + |d|, Then(Char(close), rest)) == Some(g);
  }

  /** A single blank before a number is the whole `\s*` run. */
  lemma ScanBlank(s: string, p: nat, rest: Pattern)
    requires p + 1 < |s| && s[p] == ' ' && IsDigit(s[p + 1])
    ensures Scan(s, p, Then(Blanks, rest)) == Scan(s, p + 1, rest)
  {
    assert SpaceRun(s, p + 1) == 0;
  }

  /** The last number of a printed colour and its closing parenthesis. */
  lemma ScanLastNumber(s: string, p: nat, d: string)
    requires LaidOut(s, p, d) && |d| > 0 && AllDigits(d)
    requires p + |d| < |s| && s[p + |d|] == ')'
    ensures Scan(s, p, LastNumber) == Some([d])
  {
    ScanNumber(s, p, d, ')', End, []);
    assert [d] + [] == [d];
  }

  /** A number of a printed colour followed by `, ` and the rest. */
  lemma ScanListedNumber(s: string, p: nat, d: string, rest: Pattern, g: seq<string>)
    requires LaidOut(s, p, d) && |d| > 0 && AllDigits(d)
    requires p + |d| + 2 < |s| && s[p + |d|] == ',' && s[p + |d| + 1] == ' ' && IsDigit(s[p + |d| + 2])
    requires Scan(s, p + |d| + 2, rest) == Some(g)
    ensures Scan(s, p, Then(Digits, Then(Char(','), Then(Blanks, rest)))) == Some([d] + g)
  {
    ScanBlank(s, p + |d| + 1, rest);
    ScanNumber(s, p, d, ',', Then(Blanks, rest), g);
  }

  /** Where the pieces of a printed colour sit. */
  predicate PrintedLayout(s: string, a: string, b: string, d: string)
  {
    && |s| == 9 + |a| + |b| + |d| && OpensAt(s, 0)
    && LaidOut(s, 4, a) && s[4 + |a|] == ',' && s[5 + |a|] == ' '
    && LaidOut(s, 6 + |a|, b) && s[6 + |a| + |b|] == ',' && s[7 + |a| + |b|] == ' '
    && LaidOut(s, 8 + |a| + |b|, d) && s[8 + |a| + |b| + |d|] == ')'
  }

  /** The printed form `rgb(a, b, d)` has that layout. */
  lemma PrintedIsLaidOut(s: string, a: string, b: string, d: string)
    requires s == "rgb(" + a + ", " + b + ", " + d + ")"
    ensures PrintedLayout(s, a, b, d)
  {
  }

  /** Three non-empty digit strings in the printed layout match at offset 0
      and are captured as they are. */
  lemma MatchPrinted(s: string, a: string, b: string, d: string)
    requires |a| > 0 && AllDigits(a) && |b| > 0 && AllDigits(b) && |d| > 0 && AllDigits(d)
    requires PrintedLayout(s, a, b, d)
    ensures MatchAt(s, 0) == Some(RgbMatch(a, b, d))
  {
    var c1, c2 := 4 + |a|, 6 + |a| + |b|;
    assert s[c1 + 2] == b[0] && s[c2 + 2] == d[0];
    ScanLastNumber(s, c2 + 2, d);
    ScanListedNumber(s, c1 + 2, b, LastNumber, [d]);
    assert [b] + [d] == [b, d];
    ScanListedNumber(s, 4, a, MiddleNumber, [b, d]);
    assert [a] + [b, d] == [a, b, d];
    ScanOpening(s, 0);
  }

  /** Three digit strings printed in the `rgb(...)` form read back as
      themselves, separated by `, `. */
  lemma ExtractPrintedDigits(text: string, triplet: string, a: string, b: string, d: string)
    requires |a| > 0 && AllDigits(a) && |b| > 0 && AllDigits(b) && |d| > 0 && AllDigits(d)
    requires text == "rgb(" + a + ", " + b + ", " + d + ")"
    requires triplet == a + ", " + b + ", " + d
    ensures ExtractRgb(text) == triplet
  {
    ExtractRgbLeftmost(text);
    PrintedIsLaidOut(text, a, b, d);
    MatchPrinted(text, a, b, d);
  }

  /** Printing a colour with non-negative components and extracting from
      the result gives the components back, separated by `, `. */
  lemma ExtractAfterPrint(c: Rgb)
    requires c.r >= 0 && c.g >= 0 && c.b >= 0
    ensures ExtractRgb(RgbToString(c)) == RgbTriplet(c)
  {
    ExtractPrintedDigits(RgbToString(c), RgbTriplet(c), NatToString(c.r), NatToString(c.g), NatToString(c.b));
  }

  /** A string without `(` cannot match, so it yields the default. */
  lemma ExtractWithoutParen(text: string)
    requires forall i :: 0 <= i < |text| ==> text[i] != '('
    ensures ExtractRgb(text) == NoMatchTriplet
  {
    ExtractRgbLeftmost(text);
    forall j | 0 <= j <= |text|
      ensures MatchAt(text, j).None?
    {
      ScanOpening(text, j);
      assert !OpensAt(text, j);
    }
  }

  /** The `r, g, b` triplets the default theme is written with. */
  const DefaultTriplets: seq<string> := ["30, 10, 60", "15, 5, 40", "45, 20, 80"]

  /** The `r, g, b` triplets the fallback theme is written with. */
  const FallbackTriplets: seq<string> := ["20, 15, 35", "35, 25, 55", "45, 35, 65"]

  /** Every colour of the default theme reads back as the numbers it was
      written with. */
  lemma DefaultThemeReadsBack()
    ensures |DefaultColors| == |DefaultTriplets| == 3
    ensures forall k :: 0 <= k < 3 ==> ExtractRgb(DefaultColors[k]) == DefaultTriplets[k]
  {
    forall k | 0 <= k < 3
      ensures ExtractRgb(DefaultColors[k]) == DefaultTriplets[k]
    {
      if k == 0 {
        ExtractPrintedDigits(DefaultColors[k], DefaultTriplets[k], "30", "10", "60");
      } else if k == 1 {
        ExtractPrintedDigits(DefaultColors[k], DefaultTriplets[k], "15", "5", "40");
      } else {
        ExtractPrintedDigits(DefaultColors[k], DefaultTriplets[k], "45", "20", "80");
      }
    }
  }

  /** Every colour of the fallback theme reads back as the numbers it was
      written with. */
  lemma FallbackThemeReadsBack()
    ensures |FallbackColors| == |FallbackTriplets| == 3
    ensures forall k :: 0 <= k < 3 ==> ExtractRgb(FallbackColors[k]) == FallbackTriplets[k]
  {
    forall k | 0 <= k < 3
      ensures ExtractRgb(FallbackColors[k]) == FallbackTriplets[k]
    {
      if k == 0 {
        ExtractPrintedDigits(FallbackColors[k], FallbackTriplets[k], "20", "15", "35");
      } else if k == 1 {
        ExtractPrintedDigits(FallbackColors[k], FallbackTriplets[k], "35", "25", "55");
      } else {
        ExtractPrintedDigits(FallbackColors[k], FallbackTriplets[k], "45", "35", "65");
      }
    }
  }

  // ---------------------------------------------------------------------
  // Palette filter

  function Max3(a: real, b: real, c: real): real
  {
    if a >= b && a >= c then a else if b >= c then b else c
  }

  function Min3(a: real, b: real, c: real): real
  {
    if a <= b && a <= c then a else if b <= c then b else c
  }

  function IntMax3(a: int, b: int, c: int): int
  {
    if a >= b && a >= c then a else if b >= c then b else c
  }

  function IntMin3(a: int, b: int, c: int): int
  {
    if a <= b && a <= c then a else if b <= c then b else c
  }

  /** `getBrightness`: perceived brightness on a 0-255 scale. */
  function Brightness(c: Rgb): (r: real)
    ensures 0 <= c.r <= 255 && 0 <= c.g <= 255 && 0 <= c.b <= 255 ==> 0.0 <= r <= 255.0
    ensures c.r == c.g == c.b ==> r == c.r as real
  {
    (c.r * 299 + c.g * 587 + c.b * 114) as real / 1000.0
  }

  /** `getSaturation`: the HSV saturation, taken as 0 for black. */
  function Saturation(c: Rgb): (s: real)
    ensures c.r >= 0 && c.g >= 0 && c.b >= 0 ==> 0.0 <= s <= 1.0
    ensures c.r == c.g == c.b ==> s == 0.0
  {
    var r, g, b := c.r as real / 255.0, c.g as real / 255.0, c.b as real / 255.0;
    var mx, mn := Max3(r, g, b), Min3(r, g, b);
    if mx == 0.0 then 0.0
    else
      assert c.r >= 0 && c.g >= 0 && c.b >= 0 ==> 0.0 <= (mx - mn) / mx <= 1.0 by {
        if c.r >= 0 && c.g >= 0 && c.b >= 0 {
          RatioInUnit(mx - mn, mx);
        }
      }
      (mx - mn) / mx
  }

  /** A part over a positive whole is a ratio in [0, 1]. */
  lemma RatioInUnit(part: real, whole: real)
    requires whole > 0.0 && 0.0 <= part <= whole
    ensures 0.0 <= part / whole <= 1.0
  {
    var q := part / whole;
    assert q * whole == part;
  }

  /** The palette filter's test: neither near-black nor near-white, and not
      grey. */
  predicate KeepColor(c: Rgb): (b: bool)
    ensures c.r == c.g == c.b ==> !b
  {
    Brightness(c) > 30.0 && Brightness(c) < 200.0 && Saturation(c) > 0.2
  }

  lemma DivAbove(x: real, y: real, bound: real)
    requires y > 0.0
    ensures x / y > bound <==> x > bound * y
  {
    var q := x / y;
    assert q * y == x;
    if q > bound {
      assert q * y > bound * y;
    } else {
      assert q * y <= bound * y;
    }
  }

  /** Scaling each component by 1/255 scales the largest and the smallest
      alike. */
  lemma ScaledExtremes(c: Rgb)
    ensures Max3(c.r as real / 255.0, c.g as real / 255.0, c.b as real / 255.0)
            == IntMax3(c.r, c.g, c.b) as real / 255.0
    ensures Min3(c.r as real / 255.0, c.g as real / 255.0, c.b as real / 255.0)
            == IntMin3(c.r, c.g, c.b) as real / 255.0
  {
  }

  /** The brightness bounds decided in integers on the weighted sum. */
  lemma BrightnessIntegerForm(c: Rgb)
    ensures Brightness(c) > 30.0 <==> 299 * c.r + 587 * c.g + 114 * c.b > 30000
    ensures Brightness(c) < 200.0 <==> 299 * c.r + 587 * c.g + 114 * c.b < 200000
  {
    var w := c.r * 299 + c.g * 587 + c.b * 114;
    DivAbove(w as real, 1000.0, 30.0);
    DivAbove(-w as real, 1000.0, -200.0);
  }

  /** The saturation bound decided in integers: five times the spread
      exceeds the largest component. */
  lemma SaturationIntegerForm(c: Rgb)
    requires c.r >= 0 && c.g >= 0 && c.b >= 0
    ensures Saturation(c) > 0.2 <==> 5 * (IntMax3(c.r, c.g, c.b) - IntMin3(c.r, c.g, c.b)) > IntMax3(c.r, c.g, c.b)
  {
    var hi, lo := IntMax3(c.r, c.g, c.b), IntMin3(c.r, c.g, c.b);
    ScaledExtremes(c);
    var mx, mn := hi as real / 255.0, lo as real / 255.0;
    if hi > 0 {
      DivAbove(mx - mn, mx, 0.2);
      assert mx - mn > 0.2 * mx <==> (hi - lo) as real > 0.2 * hi as real;
    }
  }

  /** The whole filter decided in integers: the weighted sum lies strictly
      between 30000 and 200000, and five times the spread exceeds the
      largest component. */
  lemma KeepColorIntegerForm(c: Rgb)
    requires c.r >= 0 && c.g >= 0 && c.b >= 0
    ensures KeepColor(c) <==>
      && 30000 < 299 * c.r + 587 * c.g + 114 * c.b < 200000
      && 5 * (IntMax3(c.r, c.g, c.b) - IntMin3(c.r, c.g, c.b)) > IntMax3(c.r, c.g, c.b)
  {
    BrightnessIntegerForm(c);
    SaturationIntegerForm(c);
  }

  /** `filteredPalette`: the palette entries that pass the filter, in their
      original order. */
  function FilteredPalette(palette: seq<Rgb>): (r: seq<Rgb>)
    ensures Subsequence(r, palette)
    ensures forall k :: 0 <= k < |r| ==> KeepColor(r[k])
    ensures forall k :: 0 <= k < |palette| && KeepColor(palette[k]) ==> palette[k] in r
    ensures |r| == |set k | 0 <= k < |palette| && KeepColor(palette[k])|
  {
    FilterIsSubsequence(palette, KeepColor);
    assert Positions(palette, KeepColor) == set k | 0 <= k < |palette| && KeepColor(palette[k]);
    Filter(palette, KeepColor)
  }

  /** `colorsToUse`: the filtered palette if it kept at least two colours,
      otherwise the whole palette. */
  function ColorsToUse(palette: seq<Rgb>): (r: seq<Rgb>)
    ensures Subsequence(r, palette)
    ensures var passing := |set k | 0 <= k < |palette| && KeepColor(palette[k])|;
      && (passing >= 2 ==> |r| == passing && forall k :: 0 <= k < |r| ==> KeepColor(r[k]))
      && (passing < 2 ==> r == palette)
    ensures |palette| >= 2 ==> |r| >= 2
  {
    var filtered := FilteredPalette(palette);
    if |filtered| >= 2 then filtered
    else
      SubsequenceReflexive(palette);
      palette
  }

  /** Choosing the colours a second time changes nothing: a filtered choice
      passes the filter entirely, and an unfiltered one fails it again. */
  lemma ColorsToUseIdempotent(palette: seq<Rgb>)
    ensures ColorsToUse(ColorsToUse(palette)) == ColorsToUse(palette)
  {
    var r := ColorsToUse(palette);
    if |FilteredPalette(palette)| >= 2 {
      FilterKeepsAll(r, KeepColor);
    }
  }

  // ---------------------------------------------------------------------
  // Theme variables

  /** `colors[2] || colors[0]`: the third colour unless it is missing or the
      empty string. */
  function InteractiveSource(colors: seq<string>): (r: string)
    requires |colors| >= 1
    ensures r == colors[0] || (|colors| > 2 && r == colors[2] && r != "")
    ensures |colors| > 2 && colors[2] != "" ==> r == colors[2]
  {
    if |colors| > 2 && colors[2] != "" then colors[2] else colors[0]
  }

  /** The custom properties the provider writes for a colour list. Nothing
      is written for fewer than two colours. */
  function CssVariables(colors: seq<string>): (vars: map<string, string>)
    ensures |colors| < 2 ==> vars == map[]
    ensures |colors| >= 2 ==>
      && vars.Keys == {"--color-bg1", "--color-bg2", "--color1", "--color2", "--color-interactive"}
      && vars["--color-bg1"] == colors[0]
      && vars["--color-bg2"] == colors[1]
      && vars["--color1"] == ExtractRgb(colors[0])
      && vars["--color2"] == ExtractRgb(colors[1])
      && (|colors| > 2 && colors[2] != "" ==> vars["--color-interactive"] == ExtractRgb(colors[2]))
      && (|colors| == 2 || colors[2] == "" ==> vars["--color-interactive"] == ExtractRgb(colors[0]))
  {
    if |colors| < 2 then map[]
    else ThemeMap(colors[0], colors[1], ExtractRgb(colors[0]), ExtractRgb(colors[1]),
                  ExtractRgb(InteractiveSource(colors)))
  }

  /** The five custom properties of a theme, each holding its own value. */
  function ThemeMap(bg1: string, bg2: string, c1: string, c2: string, interactive: string): (vars: map<string, string>)
    ensures vars.Keys == {"--color-bg1", "--color-bg2", "--color1", "--color2", "--color-interactive"}
    ensures && vars["--color-bg1"] == bg1 && vars["--color-bg2"] == bg2
            && vars["--color1"] == c1 && vars["--color2"] == c2
            && vars["--color-interactive"] == interactive
  {
    assert "--color-bg1"[10] != "--color-bg2"[10] && "--color1"[7] != "--color2"[7];
    map["--color-bg1" := bg1, "--color-bg2" := bg2, "--color1" := c1, "--color2" := c2,
        "--color-interactive" := interactive]
  }

  /** The colour strings a theme is written in: each colour printed in turn. */
  function PrintedColors(cs: seq<Rgb>): (colors: seq<string>)
    ensures |colors| == |cs|
    ensures forall k :: 0 <= k < |cs| ==> colors[k] == RgbToString(cs[k])
  {
    seq(|cs|, k requires 0 <= k < |cs| => RgbToString(cs[k]))
  }

  /** For a theme printed from colours with non-negative components, the
      gradient variables hold exactly those components; the interactive one
      comes from the third colour when there is one, else the first. */
  lemma CssVariablesOfPrintedTheme(cs: seq<Rgb>)
    requires |cs| >= 2
    requires forall k :: 0 <= k < |cs| ==> cs[k].r >= 0 && cs[k].g >= 0 && cs[k].b >= 0
    ensures var vars := CssVariables(PrintedColors(cs));
      && vars["--color1"] == RgbTriplet(cs[0])
      && vars["--color2"] == RgbTriplet(cs[1])
      && vars["--color-interactive"] == RgbTriplet(if |cs| > 2 then cs[2] else cs[0])
  {
    var colors := PrintedColors(cs);
    ExtractAfterPrint(cs[0]);
    ExtractAfterPrint(cs[1]);
    if |cs| > 2 {
      ExtractAfterPrint(cs[2]);
      assert colors[2][0] == 'r';
    }
  }
}
