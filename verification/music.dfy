/** The records the player passes around (src/types/music.ts). */
module Music {

  /** One catalogue entry. `art` and `cover` are the artwork and vinyl-art
      paths, `url` the audio path, `lyric` the path of the lyric document. */
  datatype Song = Song(
    title: string,
    artist: string,
    album: string,
    year: int,
    genre: string,
    art: string,
    cover: string,
    url: string,
    lyric: string)

  /** One timed lyric line; `time` is in milliseconds from the start. */
  datatype LyricLine = LyricLine(time: int, text: string)
}
