# AuraFlow player core in Dafny

This project models the pure logic of the AuraFlow browser music player. It proves what that logic guarantees.

- **Player hook** (`useAudioPlayer`):
  - the `PlayerState` record;
  - the audio element's events, as updates of that record;
  - the commands `playSong`, `togglePlayPause`, `next`, `previous`, `seekTo`, `setVolume`, `volumeUp`, `volumeDown` and the volume-slider toggles;
  - the lyric synchroniser `getCurrentLyricLine`.
- **Music service**: asset URL building, `getSongByIndex`, the case-insensitive `searchSongs` and `getSongsByGenre`.
- **Song grid**: the Fisher-Yates `shuffleArray`, and the rule that marks a card active.
- **Media-control bar** (both variants of the component): `formatTime`, the "next up" window over the queue, and the lyric highlight rule.
- **Background provider**: `rgbToString`, the regular-expression reader `extractRGB`, the brightness/saturation palette filter, the choice between filtered and full palette, and the CSS custom properties written for a colour list.

Modules:

| module | file | models |
|---|---|---|
| `Seqs` | seqs.dfy | `Option`, order-preserving `Subsequence`, `Filter` (`Array.prototype.filter`) |
| `Text` | text.dfy | ASCII lower-casing, `includes`, decimal printing and reading of integers |
| `Music` | music.dfy | the `Song` and `LyricLine` records |
| `Catalogue` | catalogue.dfy | src/services/MusicService.ts |
| `LyricSync` | lyric_sync.dfy | the reverse scan of `getCurrentLyricLine` |
| `Playlist` | playlist.dfy | the cursor arithmetic of `next` and `previous` |
| `AudioPlayer` | audio_player.dfy | src/hooks/useAudioPlayer.ts as functions on `PlayerState` |
| `MusicGrid` | music_grid.dfy | src/components/MusicGrid.tsx |
| `MediaControl` | media_control.dfy | src/components/MediaControl.tsx and src/components/mediacontrol.tsx |
| `Background` | background.dfy | src/contexts/BackgroundContext.tsx |

Modelling choices:

- **Numbers.** Playback position, duration and volume are exact `real`s. Lyric timestamps are `int` milliseconds, as in the lyric files. Palette components are `int`s.
- **Randomness.** The values `Math.random()` would return are an input sequence of reals in [0, 1).
- **Audio element.** The outcome of the element's `play()` promise is an input: `Resolved` or `Rejected`.
- **Fetches.** Lyrics and song lists that the service would fetch are inputs.
- **Cursors outside the playlist.** When `next` or `previous` computes an index with no entry, `playSong` receives `undefined` and throws at `song.url` (src/hooks/useAudioPlayer.ts:81) before any state update. The model returns the state unchanged.
- **JavaScript semantics written out explicitly:**
  - `%` truncates toward zero;
  - `audio.duration || 0` maps NaN to 0;
  - `colors[2] || colors[0]` skips an empty string;
  - `queue?.slice(1, 6) || []` falls back only for an absent queue, because an empty array is truthy;
  - the regular expression `/rgb\((\d+),\s*(\d+),\s*(\d+)\)/` takes the leftmost match, `\s` is the JavaScript whitespace set and `\d` is the ASCII digits.

## Model

| member | source | states |
|---|---|---|
| LyricSync.ScanBack | src/hooks/useAudioPlayer.ts:201-206 | The reverse scan over the first `n` lines finds the highest index whose time is at most the position in milliseconds. Every later line has not started. None means no line in range has started. |
| LyricSync.CurrentLyricLine | src/hooks/useAudioPlayer.ts:194-207 | An empty lyric list gives no line. The result is absent exactly when no line's time is at or below `currentTime * 1000`. A line that is returned is the one at the last index that has started. |
| LyricSync.LastStartedUnique | src/hooks/useAudioPlayer.ts:201-205 | At most one index is the last line that has started, so the line the scan picks is determined by the lyrics and the position. |
| LyricSync.CurrentLineHasStarted | src/hooks/useAudioPlayer.ts:199-205 | A returned line is a member of the lyrics and its time is at most the current millisecond. It sits at an index after which every line starts later than the current position. |
| LyricSync.AscendingPicksLatest | src/hooks/useAudioPlayer.ts:201-205 | When lyric times ascend, the chosen line is the latest-starting line that has started. Every line up to it has started, and the next line has not. |
| LyricSync.ScanBackMonotone | src/hooks/useAudioPlayer.ts:201-205 | For ascending lyric times, moving playback forward never moves the chosen line backward. |
| Playlist.NextIndex | src/hooks/useAudioPlayer.ts:138 | For a non-empty playlist and any cursor from -1 on, `next` picks an index inside the playlist. |
| Playlist.PrevIndex | src/hooks/useAudioPlayer.ts:146 | For a non-empty playlist and any cursor up to its length, `previous` picks an index inside the playlist. |
| Playlist.FromInitialCursor | src/hooks/useAudioPlayer.ts:15 | From the initial cursor -1, `next` starts at the first song and `previous` at the last. |
| Playlist.NextPrevInverse | src/hooks/useAudioPlayer.ts:138-146 | On every valid index, `previous` undoes `next` and `next` undoes `previous`, including on a one-song playlist. |
| Playlist.NextIndexIsModular | src/hooks/useAudioPlayer.ts:138 | From -1 or a valid index, `next` is one step forward modulo the length. |
| Playlist.PrevIndexIsModular | src/hooks/useAudioPlayer.ts:146 | From a valid index, `previous` is one step backward modulo the length. |
| Playlist.NextTimesIsModular | src/hooks/useAudioPlayer.ts:134-140 | `k` presses of `next` from a valid index land `k` places further on, modulo the length. |
| Playlist.PrevTimesIsModular | src/hooks/useAudioPlayer.ts:142-148 | `k` presses of `previous` from a valid index land `k` places earlier, modulo the length. |
| Playlist.NextFullLap | src/hooks/useAudioPlayer.ts:134-140 | As many `next` presses as there are songs return to the starting song. |
| AudioPlayer.Clamp | src/hooks/useAudioPlayer.ts:163 | The clamped volume lies in [0, 1]. It is the input when the input is in range, 0 below the range and 1 above it. |
| AudioPlayer.ClampIdempotent | src/hooks/useAudioPlayer.ts:163 | Clamping twice is the same as clamping once. |
| AudioPlayer.OnTimeUpdate | src/hooks/useAudioPlayer.ts:26-31 | A time update stores the element's position and leaves every other field unchanged. |
| AudioPlayer.OnDurationChange | src/hooks/useAudioPlayer.ts:33-38 | The stored duration is 0 exactly when the element's duration is unknown (NaN) or 0; otherwise it is the element's duration. No other field changes. |
| AudioPlayer.OnLoadStart | src/hooks/useAudioPlayer.ts:44-46 | `loadstart` sets the loading flag and changes nothing else. |
| AudioPlayer.OnCanPlay | src/hooks/useAudioPlayer.ts:48-50 | `canplay` clears the loading flag and changes nothing else. |
| AudioPlayer.PlaylistLoaded | src/hooks/useAudioPlayer.ts:68-75 | Loading a playlist replaces the playlist and changes nothing else. |
| AudioPlayer.BeginPlay | src/hooks/useAudioPlayer.ts:83-88 | The first update of `playSong` selects the song and the index and starts loading. Nothing else changes. |
| AudioPlayer.PlaySong | src/hooks/useAudioPlayer.ts:77-114 | After `playSong` the chosen song, its index and its lyrics are current. A resolved `play()` leaves the player playing and still loading. A rejected one leaves it neither playing nor loading. Playlist, volume, slider, position and duration are untouched. |
| AudioPlayer.PlaySongIdempotent | src/hooks/useAudioPlayer.ts:77-114 | Playing the same entry again with the same lyrics and outcome changes nothing further. |
| AudioPlayer.PlayThenCanPlay | src/hooks/useAudioPlayer.ts:48-112 | After `playSong` and the element's `canplay`, the chosen song and index are current and nothing is loading. The player is playing exactly when `play()` resolved. After a refusal, `canplay` changes nothing. |
| AudioPlayer.TogglePlayPause | src/hooks/useAudioPlayer.ts:116-132 | A playing player pauses. A paused player plays exactly when `play()` resolves. Only the playing flag can change. |
| AudioPlayer.PauseThenResume | src/hooks/useAudioPlayer.ts:116-132 | Pausing a playing player and then resuming successfully restores the original state. |
| AudioPlayer.Next | src/hooks/useAudioPlayer.ts:134-140 | On an empty playlist nothing changes. Otherwise, from any cursor of -1 or more, the entry one place forward (modulo the length from -1 or a valid index) is played: its index, song and lyrics become current, and the flags follow the `play()` outcome as in `playSong`. Playlist, volume, slider, position and duration are untouched. A cursor below -1 selects no entry, so `playSong` throws before any update and nothing changes. |
| AudioPlayer.Previous | src/hooks/useAudioPlayer.ts:142-148 | On an empty playlist nothing changes. Otherwise, from any cursor up to the length, the entry one place back (modulo the length from a valid index) is played, with the same effects as `playSong`. A cursor past the length selects no entry, so nothing changes. |
| AudioPlayer.NextWith | src/hooks/useAudioPlayer.ts:134-140 | `next` as run from a captured snapshot of the state: the index and song come from the snapshot's playlist and cursor, and `playSong` applies to the live state: the lyrics are installed, the playing and loading flags follow the `play()` outcome, and the live playlist, volume, slider, position and duration are kept. With an empty snapshot playlist, or a cursor below -1, the live state is returned unchanged. |
| AudioPlayer.NextPreviousReturn | src/hooks/useAudioPlayer.ts:134-148 | `previous` after `next`, and `next` after `previous`, come back to the song that was playing. |
| AudioPlayer.OnEndedAsWritten | src/hooks/useAudioPlayer.ts:40-42 | The `ended` listener as registered never changes the state. |
| AudioPlayer.OnEnded | src/hooks/useAudioPlayer.ts:40-42 | The evidently intended `ended` listener plays the next entry of the live playlist, with the effects `next` has. On an empty playlist it changes nothing. |
| AudioPlayer.EndedDoesNotAdvance | src/hooks/useAudioPlayer.ts:40-42 | When a song that is not the last one ends, the listener as written stays on it, while the intended listener moves to the next index. |
| AudioPlayer.SeekTo | src/hooks/useAudioPlayer.ts:150-158 | Seeking stores the requested time, without clamping, and leaves every other field unchanged. The active lyric line becomes the one for the new position in the same lyrics. |
| AudioPlayer.SetVolume | src/hooks/useAudioPlayer.ts:160-169 | The stored volume is the request clamped to [0, 1]. A request in range is kept exactly. Nothing else changes. |
| AudioPlayer.SetVolumeIdempotent | src/hooks/useAudioPlayer.ts:160-169 | Setting the volume again to the value just stored changes nothing. |
| AudioPlayer.VolumeUp | src/hooks/useAudioPlayer.ts:172-174 | The volume stays in [0, 1] and never decreases. Up to 0.9 it rises by exactly 0.1. Nothing else changes. |
| AudioPlayer.VolumeDown | src/hooks/useAudioPlayer.ts:176-178 | The volume stays in [0, 1] and never increases. From 0.1 on it falls by exactly 0.1. Nothing else changes. |
| AudioPlayer.VolumeStepsCancel | src/hooks/useAudioPlayer.ts:172-178 | Away from the ends of the range, one step up and one step down cancel out. |
| AudioPlayer.ToggleVolumeSlider | src/hooks/useAudioPlayer.ts:180-185 | The slider's visibility flips and nothing else changes. |
| AudioPlayer.HideVolumeSlider | src/hooks/useAudioPlayer.ts:187-192 | The slider is hidden and nothing else changes. |
| AudioPlayer.CurrentLyricLine | src/hooks/useAudioPlayer.ts:194-207 | Any line returned belongs to the state's lyrics, has started, and is the one at the last index that has started. No line is returned exactly when every line starts after the current position. |
| Catalogue.AssetUrl | src/services/MusicService.ts:63-77 | An art, audio or vinyl URL is `/` followed by the unchanged path. |
| Catalogue.AssetUrlInjective | src/services/MusicService.ts:63-77 | Distinct paths give distinct URLs. |
| Catalogue.SongByIndex | src/services/MusicService.ts:31-33 | A song comes back exactly for an index inside the catalogue, and it is the song at that index. |
| Catalogue.SongByIndexCoversCatalogue | src/services/MusicService.ts:31-33 | A song is in the catalogue exactly when some index returns it. |
| Catalogue.SearchSongs | src/services/MusicService.ts:35-44 | The result keeps catalogue order. Every song in it matches the lower-cased query, and every matching song is in it. Its length is the number of matching catalogue positions, so a song listed twice is found twice. |
| Catalogue.SearchMembership | src/services/MusicService.ts:36-43 | A catalogue song is found exactly when the lower-cased query occurs in its lower-cased title, artist, album or genre. |
| Catalogue.SearchEmptyQuery | src/services/MusicService.ts:37-43 | Searching for the empty string returns the whole catalogue in order. |
| Catalogue.SearchIgnoresQueryCase | src/services/MusicService.ts:36 | A query and its lower-case form give the same result. |
| Catalogue.SongsByGenre | src/services/MusicService.ts:46-50 | The result keeps catalogue order and holds exactly the songs whose lower-cased genre contains the lower-cased genre asked for, once per catalogue position. |
| Seqs.Filter | src/services/MusicService.ts:37-43 | `filter` keeps only elements that pass the test, keeps every element that passes, and returns exactly one element per passing position of its input, so it is never longer than its input. |
| Seqs.PositionsCons | src/services/MusicService.ts:37-43 | putting one element in front of a sequence adds one passing position exactly when that element passes the test, which is what lets `filter` be counted position by position. |
| Catalogue.GenreWithinSearch | src/services/MusicService.ts:42-48 | The songs of a genre are an order-preserving subsequence of a search for the same text. |
| Text.Lower | src/services/MusicService.ts:36 | Lower-casing keeps the length and maps every character on its own. |
| Text.LowerIdempotent | src/services/MusicService.ts:36-42 | Lower-casing a lower-cased string changes nothing. |
| Text.IncludesIffOccurs | src/services/MusicService.ts:39-42 | `includes` holds exactly when the needle occurs at some offset of the string. |
| Text.IncludesEmpty | src/services/MusicService.ts:39-42 | Every string includes the empty string. |
| Text.NatToString | src/components/MediaControl.tsx:45 | The decimal form of a whole number is a non-empty digit string. |
| Text.NatToStringRoundTrip | src/components/MediaControl.tsx:45 | Reading the decimal form back gives the number. |
| Text.NatToStringNoLeadingZero | src/components/MediaControl.tsx:45 | A decimal form starts with `0` exactly when the number is 0. |
| Text.NatToStringInjective | src/contexts/BackgroundContext.tsx:36-38 | Distinct numbers print differently. |
| MusicGrid.PickIndex | src/components/MusicGrid.tsx:20 | A draw in [0, 1) picks a position in [0, i]. |
| MusicGrid.ScaledDrawBelow | src/components/MusicGrid.tsx:20 | A draw in [0, 1) times a positive whole number `m` lies in [0, m). |
| MusicGrid.Swap | src/components/MusicGrid.tsx:21 | The swap exchanges the two positions and keeps every other position. |
| MusicGrid.SwapPermutes | src/components/MusicGrid.tsx:21 | A swap is a permutation of the array. |
| MusicGrid.PartialShuffle | src/components/MusicGrid.tsx:19-22 | The array at the loop head keeps the length of the input. |
| MusicGrid.Shuffled | src/components/MusicGrid.tsx:17-24 | The whole shuffle keeps the length, and an input of zero or one song is returned unchanged because the loop body never runs. |
| MusicGrid.PartialShufflePermutes | src/components/MusicGrid.tsx:19-22 | The array at every loop head is a permutation of the input. |
| MusicGrid.PassedPositionsAreFinal | src/components/MusicGrid.tsx:19-22 | Once the cursor has moved below a position, later iterations never change what is stored there. |
| MusicGrid.ShuffleArray | src/components/MusicGrid.tsx:17-24 | The loop computes the shuffle it specifies on a copy: a permutation of the input with the same length. Inputs of zero or one song come back unchanged. |
| MusicGrid.ShuffleIdentity | src/components/MusicGrid.tsx:19-22 | If every draw picks the position itself, the shuffle returns its input unchanged. |
| MusicGrid.ActiveByTitle | src/components/MusicGrid.tsx:65 | Cards are matched by title only. Two songs sharing a title are both active or both inactive, nothing is active with no current song, and the current song's own card is active. |
| MusicGrid.IsActiveCard | src/components/MusicGrid.tsx:65 | No card is active without a current song, and the current song's own card is active. |
| MusicGrid.PauseButtonFollowsPlayback | src/components/MusicGrid.tsx:65-82 | Once `play()` resolves for a chosen song, a card shows pause exactly when it has that song's title. After a refused `play()`, or after pausing, no card shows pause. |
| MediaControl.PadStart2 | src/components/MediaControl.tsx:45 | A string of two or more characters is unchanged. A shorter one is padded on the left with `0`s to exactly two characters and ends with the original. |
| MediaControl.FormatTimeFields | src/components/MediaControl.tsx:43-44 | For a non-negative time, the minutes are non-negative, the seconds lie in [0, 60), and 60 times the minutes plus the seconds is the whole number of seconds. |
| MediaControl.FormatTime | src/components/MediaControl.tsx:42-46 | For a non-negative time the label is a digit string, a colon and exactly two digits. |
| MediaControl.PaddedSecondsRoundTrip | src/components/mediacontrol.tsx:32-33 | A seconds value below 60, padded, is exactly two digits that read back as itself. |
| MediaControl.FormatTimeShape | src/components/mediacontrol.tsx:30-34 | For a non-negative time the label is the unpadded minutes, a colon, then exactly two digits. |
| MediaControl.FormatTimeParts | src/components/MediaControl.tsx:42-46 | For a non-negative time the part before the colon is the printed minutes and the two digits after it are the padded seconds. |
| MediaControl.FormatTimeRoundTrip | src/components/MediaControl.tsx:42-46 | Reading a label back as `m:ss` gives exactly the whole seconds of the time it was made from. |
| MediaControl.MinutesUnpadded | src/components/MediaControl.tsx:43-45 | From one minute on, the label does not start with `0`. |
| MediaControl.FormatTimeExamples | src/components/MediaControl.tsx:42-46 | 0 s reads `0:00`, 60 s reads `1:00`, and 125.5 s reads `2:05`. |
| MediaControl.NextUpSongs | src/components/MediaControl.tsx:62 | At most five songs. None for an absent queue or a queue of at most one entry. Otherwise exactly the entries after the head, up to the sixth, in order. |
| MediaControl.IsHighlighted | src/components/MediaControl.tsx:120 | Nothing is highlighted without a current line, and the current line itself is always highlighted. |
| MediaControl.HighlightRule | src/components/MediaControl.tsx:117-121 | At a playback position, a lyric line is highlighted exactly when it has the text of the last line that has started. That line is always highlighted, and nothing is highlighted before the first line starts. |
| MediaControl.RepeatedLineHighlightedTwice | src/components/mediacontrol.tsx:130-134 | When a text repeats, both of its lines are highlighted even though only the later one is current. |
| MediaControl.CurrentLineUnique | src/components/MediaControl.tsx:57 | Under the corrected rule a line is lit exactly when it is the last line that has started, so at most one line is lit, it carries the current line, and none is lit before any line starts. |
| MediaControl.RepeatedLineLitOnce | src/components/MediaControl.tsx:120 | On lyrics `la` (0 ms), `x` (1000 ms), `la` (2000 ms) at 2.5 s the corrected rule lights only the second `la`, while the text comparison of the code also lights the first. |
| Background.DigitRun | src/contexts/BackgroundContext.tsx:177 | A `\d+` run stays inside the string and stops at a non-digit or at the end. |
| Background.DigitRunDigits | src/contexts/BackgroundContext.tsx:177 | Every character of a digit run is a digit. |
| Background.Scan | src/contexts/BackgroundContext.tsx:177 | A successful scan captures one group per `(\d+)` of the pattern. |
| Background.DigitRunExact | src/contexts/BackgroundContext.tsx:177 | A run of digits that ends at the end of the string or at a non-digit is the longest digit run. |
| Background.SpaceRunExact | src/contexts/BackgroundContext.tsx:177 | A run of `\s` characters that ends at the end of the string or at a non-blank is the longest blank run. |
| Background.ScanSound | src/contexts/BackgroundContext.tsx:177 | What the greedy scan captures is a backtracking regular-expression match of the pattern. |
| Background.ScanComplete | src/contexts/BackgroundContext.tsx:177 | For a pattern whose `\d+` runs are each followed by a non-digit literal, and whose `\s*` runs are each followed by a `\d+` or a non-blank literal, every regular-expression match is the one the greedy scan finds. |
| Background.ScanIsRegexMatch | src/contexts/BackgroundContext.tsx:177 | For such a pattern the greedy scan and the backtracking match agree: same success, same groups. |
| Background.MatchAtIsRegexMatch | src/contexts/BackgroundContext.tsx:177-178 | At every offset, `/rgb\((\d+),\s*(\d+),\s*(\d+)\)/` matches exactly when the greedy scan does, and its three groups are the scan's. |
| Background.ScanCapturesDigits | src/contexts/BackgroundContext.tsx:177 | Every group the matcher captures is a non-empty digit string. |
| Background.MatchCapturesDigits | src/contexts/BackgroundContext.tsx:177-178 | Each of the three groups of an `rgb(...)` match is a non-empty digit string. |
| Background.ScanOpening | src/contexts/BackgroundContext.tsx:177 | A match can start only at the literal `rgb(`, and from there it depends only on the numbers that follow. |
| Background.FirstMatch | src/contexts/BackgroundContext.tsx:177 | The search finds the leftmost offset where the pattern matches, or reports that it matches nowhere. |
| Background.ExtractRgb | src/contexts/BackgroundContext.tsx:176-179 | Whatever the input, the result is three non-empty digit strings joined by `, `. |
| Background.ExtractRgbLeftmost | src/contexts/BackgroundContext.tsx:176-179 | `extractRGB` gives `108, 0, 162` when nothing matches. Otherwise it gives the three numbers of the leftmost match joined by `, `. |
| Background.MatchPrinted | src/contexts/BackgroundContext.tsx:36-38 | Three digit strings in the printed `rgb(a, b, c)` layout match at the start and are captured unchanged. |
| Background.ExtractPrintedDigits | src/contexts/BackgroundContext.tsx:176-179 | Any three digit strings printed as `rgb(a, b, c)` read back as `a, b, c`. |
| Background.ExtractAfterPrint | src/contexts/BackgroundContext.tsx:36-38 | Printing a colour with non-negative components and extracting from the result gives the components separated by `, `. |
| Background.ExtractWithoutParen | src/contexts/BackgroundContext.tsx:177-178 | A string without `(` yields the default `108, 0, 162`. |
| Background.DefaultThemeReadsBack | src/contexts/BackgroundContext.tsx:28-32 | The default theme has three colours, and each one reads back as the numbers it was written with. |
| Background.FallbackThemeReadsBack | src/contexts/BackgroundContext.tsx:123-127 | The fallback theme has three colours, and each one reads back as the numbers it was written with. |
| Background.RgbToString | src/contexts/BackgroundContext.tsx:36-38 | The string is `rgb(`, then the `r, g, b` triplet of the colour, then `)`. |
| Background.Brightness | src/contexts/BackgroundContext.tsx:60-62 | For components in [0, 255] the brightness lies in [0, 255]. A grey's brightness is its component value. |
| Background.Saturation | src/contexts/BackgroundContext.tsx:65-72 | For non-negative components the saturation lies in [0, 1]. A grey, including black, has saturation 0. |
| Background.KeepColor | src/contexts/BackgroundContext.tsx:74-81 | The filter never keeps a grey. |
| Background.BrightnessIntegerForm | src/contexts/BackgroundContext.tsx:60-62 | The brightness bounds 30 and 200 are decided by the weighted sum `299r + 587g + 114b` against 30000 and 200000. |
| Background.SaturationIntegerForm | src/contexts/BackgroundContext.tsx:65-72 | For non-negative components, saturation above 0.2 means five times the spread exceeds the largest component. Black counts as saturation 0. |
| Background.KeepColorIntegerForm | src/contexts/BackgroundContext.tsx:74-81 | The palette filter keeps a colour exactly when the weighted sum lies strictly between 30000 and 200000 and five times the spread exceeds the largest component. |
| Background.FilteredPalette | src/contexts/BackgroundContext.tsx:75-81 | The filtered palette keeps palette order. It holds only colours that pass, and every colour that passes, once per palette position. |
| Background.ColorsToUse | src/contexts/BackgroundContext.tsx:84 | When at least two palette positions pass the filter, the colours used are exactly those, in palette order. Otherwise the whole palette is used. A palette of two or more never yields fewer than two. |
| Background.ColorsToUseIdempotent | src/contexts/BackgroundContext.tsx:84 | Choosing the colours to use from an already chosen list gives the same list. |
| Background.InteractiveSource | src/contexts/BackgroundContext.tsx:183 | The interactive colour comes from the third colour when it exists and is non-empty, otherwise from the first. |
| Background.CssVariables | src/contexts/BackgroundContext.tsx:169-185 | Nothing is written for fewer than two colours. Otherwise exactly five properties are written: the two gradient backgrounds verbatim, and the extracted numbers of the first and second colour. The interactive one is extracted from the third colour when it exists and is non-empty, else from the first. |
| Background.CssVariablesOfPrintedTheme | src/contexts/BackgroundContext.tsx:171-183 | For a theme printed from non-negative colours, the number variables hold exactly those colours' components. The interactive one uses the third colour when present, else the first. |

## Left out

- **Audio element I/O.** Construction, listener registration and teardown, `src`, `load()` and the element's own volume and position are not modelled. Only the state updates they cause are modelled. The `audioRef.current` null guard is not modelled either: the element always exists once the hook has mounted.
- **Async ordering.** `playSong` is modelled as run to completion with its lyric fetch and `play()` outcome given. Overlapping calls, and events arriving between its awaits, are not modelled.
- **Fetches.** `loadSongs`, `loadLyrics`, `loadPlaylist` and the service singleton are network I/O or plumbing. Their results are parameters.
- **`loadPlaylist` callers.** The hook's `loadPlaylist` is modelled as `AudioPlayer.PlaylistLoaded`. No caller of it appears in the files modelled.
- **Randomness.** `Math.random()` draws are supplied as an input sequence.
- **Image palette extraction.** ColorThief, image loading, the 100 ms timer, the vibrancy sort and `darkenColor` (src/contexts/BackgroundContext.tsx:86-118) depend on a foreign library and on float products rounded with `Math.round`. `updateColors` is therefore modelled only through its filter and palette choice and through the themes it writes on failure. `resetToDefault` is only `setColors(defaultColors)`.
- **Floating point.** Times and volumes are exact reals:
  - `0.1` steps do not accumulate binary rounding;
  - the saturation test at 0.2 is exact.
- **NaN and infinities.** An unknown duration is `None`. NaN or infinite times and volumes are otherwise not modelled.
- **Large numbers.** Decimal printing is exact for every integer. JavaScript's exponent form for very large numbers is not modelled.
- **Text.Lower**: only ASCII letters are lower-cased. JavaScript's `toLowerCase` also maps other Unicode letters, so searches on accented or non-Latin text are weaker in the model than in the program.
- **Catalogue.SongByIndex**: only integer indexes are modelled. A fractional index, which JavaScript would map to `undefined` and then to `null`, is not.
- **The `queue` of the media bar** is read from the music context, but the hook never provides it. `MediaControl.NextUpSongs` therefore takes it as an optional input.
- **Context wiring and UI.** The music context provider, the page, the background-sync hook, queue drag-and-drop, the navigation menu, media-session declarations, JSX markup and class strings are not part of this model. The only parts of the markup modelled are the active-card and lyric-highlight predicates.
- **Declared queue operations** (`shouldCreateQueue`, `setLoop`, `setShuffle`, `reorderQueue`, `removeFromQueue`) have no implementation in the files modelled.
- **Behaviour the code fixes.** The model follows the code where a reader might expect otherwise:
  - the lyric highlight compares text, rather than using each line's time window;
  - `seekTo` does not clamp to the duration;
  - the `ended` handler calls `next` synchronously, with no deferral.

## Findings

| source | as written | input that shows it | evidently intended | confidence | as-written member | corrected member |
|---|---|---|---|---|---|---|
| src/hooks/useAudioPlayer.ts:40-42 | The `ended` listener is registered once, in an effect with an empty dependency list. It calls the `next` of the first render, which captured the initial state with an empty playlist, so it returns without doing anything. | Any playlist of two or more songs playing entry 0 when the song ends: the player stays on entry 0. | When a song ends, play the next entry of the live playlist, as the control bar's `next` does. | medium, not executed | AudioPlayer.EndedDoesNotAdvance | AudioPlayer.OnEnded |
| src/components/MediaControl.tsx:120 | A lyric line is highlighted when its text equals the current line's text. | Lyrics `la` (0 ms), `x` (1000 ms), `la` (2000 ms) at 2.5 s: both `la` lines are highlighted. | Highlight only the line the synchroniser chose, identified by its position. | medium, not executed | MediaControl.RepeatedLineHighlightedTwice | MediaControl.CurrentLineUnique |
