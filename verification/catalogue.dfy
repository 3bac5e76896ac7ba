/** The pure queries of the catalogue service (src/services/MusicService.ts):
    asset URLs, lookup by position, text search and genre filter. The loaded
    song list is passed in explicitly instead of living in a singleton. */
module Catalogue {
  import opened Seqs
  import opened Text
  import opened Music

  /** `getArtUrl`, `getAudioUrl` and `getVinylArtUrl` all resolve a stored
      path against the site root by prefixing a slash. */
  function AssetUrl(path: string): (url: string)
    ensures |url| == |path| + 1
    ensures url[0] == '/' && url[1..] == path
  {
    "/" + path
  }

  /** Distinct paths give distinct URLs. */
  lemma AssetUrlInjective(p: string, q: string)
    requires AssetUrl(p) == AssetUrl(q)
    ensures p == q
  {
    assert p == AssetUrl(p)[1..];
  }

  /** `getSongByIndex`: the song at `index`, or null off either end. */
  function SongByIndex(songs: seq<Song>, index: int): (r: Option<Song>)
    ensures r.Some? <==> 0 <= index < |songs|
    ensures r.Some? ==> r.value == songs[index]
  {
    if 0 <= index < |songs| then Some(songs[index]) else None
  }

  /** `getSongByIndex` reaches every song of the catalogue and nothing else:
      a song is in the catalogue exactly when some index returns it. */
  lemma SongByIndexCoversCatalogue(songs: seq<Song>, song: Song)
    ensures song in songs <==> exists i :: SongByIndex(songs, i) == Some(song)
  {
    if song in songs {
      var i :| 0 <= i < |songs| && songs[i] == song;
      assert SongByIndex(songs, i) == Some(song);
    }
  }

  /** The search criterion, given an already lower-cased query. */
  predicate MatchesQuery(song: Song, lowerQuery: string)
  {
    || Includes(Lower(song.title), lowerQuery)
    || Includes(Lower(song.artist), lowerQuery)
    || Includes(Lower(song.album), lowerQuery)
    || Includes(Lower(song.genre), lowerQuery)
  }

  /** The genre criterion, given an already lower-cased genre. */
  predicate MatchesGenre(song: Song, lowerGenre: string)
  {
    Includes(Lower(song.genre), lowerGenre)
  }

  /** `searchSongs`: the songs whose title, artist, album or genre contains
      the query, ignoring case, in catalogue order. */
  function SearchSongs(songs: seq<Song>, query: string): (r: seq<Song>)
    ensures Subsequence(r, songs)
    ensures forall k :: 0 <= k < |r| ==> MatchesQuery(r[k], Lower(query))
    ensures forall k :: 0 <= k < |songs| && MatchesQuery(songs[k], Lower(query)) ==> songs[k] in r
    ensures |r| == |set k | 0 <= k < |songs| && MatchesQuery(songs[k], Lower(query))|
  {
    var lq := Lower(query);
    var f := s => MatchesQuery(s, lq);
    FilterIsSubsequence(songs, f);
    assert Positions(songs, f) == set k | 0 <= k < |songs| && MatchesQuery(songs[k], lq);
    Filter(songs, f)
  }

  /** `getSongsByGenre`: the songs whose genre field contains `genre`,
      ignoring case, in catalogue order. */
  function SongsByGenre(songs: seq<Song>, genre: string): (r: seq<Song>)
    ensures Subsequence(r, songs)
    ensures forall k :: 0 <= k < |r| ==> MatchesGenre(r[k], Lower(genre))
    ensures forall k :: 0 <= k < |songs| && MatchesGenre(songs[k], Lower(genre)) ==> songs[k] in r
    ensures |r| == |set k | 0 <= k < |songs| && MatchesGenre(songs[k], Lower(genre))|
  {
    var lg := Lower(genre);
    var f := s => MatchesGenre(s, lg);
    FilterIsSubsequence(songs, f);
    assert Positions(songs, f) == set k | 0 <= k < |songs| && MatchesGenre(songs[k], lg);
    Filter(songs, f)
  }

  /** A song is found exactly when the lower-cased query is a substring of one
      of its four lower-cased text fields. */
  lemma SearchMembership(songs: seq<Song>, query: string, song: Song)
    requires song in songs
    ensures song in SearchSongs(songs, query) <==>
      || (exists k :: OccursAt(Lower(song.title), Lower(query), k))
      || (exists k :: OccursAt(Lower(song.artist), Lower(query), k))
      || (exists k :: OccursAt(Lower(song.album), Lower(query), k))
      || (exists k :: OccursAt(Lower(song.genre), Lower(query), k))
  {
    var lq := Lower(query);
    IncludesIffOccurs(Lower(song.title), lq);
    IncludesIffOccurs(Lower(song.artist), lq);
    IncludesIffOccurs(Lower(song.album), lq);
    IncludesIffOccurs(Lower(song.genre), lq);
    var r := SearchSongs(songs, query);
    if song in r {
      var k :| 0 <= k < |r| && r[k] == song;
    } else {
      var k :| 0 <= k < |songs| && songs[k] == song;
    }
  }

  /** The empty query matches every song, so the whole catalogue comes back. */
  lemma SearchEmptyQuery(songs: seq<Song>)
    ensures SearchSongs(songs, "") == songs
  {
    var lq := Lower("");
    assert lq == "";
    forall k | 0 <= k < |songs|
      ensures MatchesQuery(songs[k], lq)
    {
      IncludesEmpty(Lower(songs[k].title));
    }
    FilterKeepsAll(songs, s => MatchesQuery(s, lq));
  }

  /** Searching is blind to the case of the query. */
  lemma SearchIgnoresQueryCase(songs: seq<Song>, query: string)
    ensures SearchSongs(songs, query) == SearchSongs(songs, Lower(query))
  {
    LowerIdempotent(query);
    var lq, llq := Lower(query), Lower(Lower(query));
    FilterCongruent(songs, s => MatchesQuery(s, lq), s => MatchesQuery(s, llq));
  }

  /** Every genre result is also a search result for the same text, and the
      two lists agree on order. */
  lemma GenreWithinSearch(songs: seq<Song>, genre: string)
    ensures Subsequence(SongsByGenre(songs, genre), SearchSongs(songs, genre))
  {
    var lg := Lower(genre);
    FilterStrongerIsSubsequence(songs, s => MatchesGenre(s, lg), s => MatchesQuery(s, lg));
  }
}
