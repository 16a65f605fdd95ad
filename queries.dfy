/** The six read-only queries. Each ranking query picks its rows, groups them
    by a key, and hands the keys to `Ranking.Rank`; its contract restates the
    ranking in the query's own terms, against a count of the matching rows
    defined directly on the tables. */
module Queries {
  import opened Strings
  import opened Store
  import opened Ranking
  import Ingest

  // ------------------------------------------------- most prolific artists

  /** The artist of every single released in [start, end], one per single. */
  function ProlificKeys(songs: seq<Song>, start: int, end: int): seq<Key> {
    if |songs| == 0 then []
    else
      var s := songs[|songs| - 1];
      ProlificKeys(songs[..|songs| - 1], start, end)
        + if s.album.None? && start <= s.year <= end then [(s.artist, "")] else []
  }

  /** Number of singles by `artist` released in [start, end]. */
  function SinglesBy(songs: seq<Song>, artist: string, start: int, end: int): nat {
    if |songs| == 0 then 0
    else
      var s := songs[|songs| - 1];
      SinglesBy(songs[..|songs| - 1], artist, start, end)
        + if s.album.None? && s.artist == artist && start <= s.year <= end then 1 else 0
  }

  lemma {:induction false} ProlificKeysCount(songs: seq<Song>, start: int, end: int)
    ensures forall k | k in ProlificKeys(songs, start, end) :: k.1 == ""
    ensures forall a :: Count(ProlificKeys(songs, start, end), (a, "")) == SinglesBy(songs, a, start, end)
  {
    if |songs| > 0 {
      ProlificKeysCount(songs[..|songs| - 1], start, end);
    }
  }

  /** get_most_prolific_individual_artists: the `n` artists with the most
      singles released in [start, end], as (artist, number of singles), most
      singles first and then alphabetically; an artist is listed only if it has
      such a single, and one left out has fewer singles than every listed
      artist, or as many and a later name. */
  function MostProlificArtists(db: Db, n: nat, start: int, end: int): (r: seq<(string, nat)>)
    ensures |r| <= n
    ensures forall i | 0 <= i < |r| :: r[i].1 == SinglesBy(db.songs, r[i].0, start, end) > 0
    ensures forall i, j | 0 <= i < j < |r| :: r[i].1 > r[j].1 || (r[i].1 == r[j].1 && Less(r[i].0, r[j].0))
    ensures forall a | SinglesBy(db.songs, a, start, end) > 0 && (forall i | 0 <= i < |r| :: r[i].0 != a) ::
              |r| == n && forall i | 0 <= i < |r| ::
                r[i].1 > SinglesBy(db.songs, a, start, end)
                || (r[i].1 == SinglesBy(db.songs, a, start, end) && Less(r[i].0, a))
  {
    var ks := ProlificKeys(db.songs, start, end);
    ProlificKeysCount(db.songs, start, end);
    RankNamed(ks, n, a => SinglesBy(db.songs, a, start, end));
    Named(Rank(ks, n))
  }

  // --------------------------------------------- artists' last single year

  function Max(a: int, b: int): int {
    if a < b then b else a
  }

  /** The latest release year among the singles of `artist`, if any. */
  function LastSingleYear(songs: seq<Song>, artist: string): (r: Option<int>)
    ensures r.None? <==> forall s | s in songs :: !(s.album.None? && s.artist == artist)
    ensures r.Some? ==> exists s | s in songs :: s.album.None? && s.artist == artist && s.year == r.value
    ensures r.Some? ==> forall s | s in songs && s.album.None? && s.artist == artist :: s.year <= r.value
  {
    if |songs| == 0 then None
    else
      var init := songs[..|songs| - 1];
      var s := songs[|songs| - 1];
      assert songs == init + [s];
      var before := LastSingleYear(init, artist);
      if !(s.album.None? && s.artist == artist) then before
      else if before.None? then Some(s.year)
      else Some(Max(before.value, s.year))
  }

  /** get_artists_last_single_in_year: exactly the artists that released a
      single in `year` and no single in a later year; an artist without
      singles is never listed. */
  function ArtistsLastSingleInYear(db: Db, year: int): (r: set<string>)
    ensures forall a :: a in r <==>
              && (exists s | s in db.songs :: s.album.None? && s.artist == a && s.year == year)
              && (forall s | s in db.songs && s.album.None? && s.artist == a :: s.year <= year)
  {
    set s | s in db.songs && s.album.None? && LastSingleYear(db.songs, s.artist) == Some(year) :: s.artist
  }

  // ------------------------------------------------------- top song genres

  /** The genre name of every SongGenre row whose genre exists, one per row. */
  function GenreKeys(links: seq<(nat, nat)>, genres: seq<Genre>): seq<Key> {
    if |links| == 0 then []
    else
      var g := GenreName(genres, links[|links| - 1].1);
      GenreKeys(links[..|links| - 1], genres) + if g.Some? then [(g.value, "")] else []
  }

  /** Number of SongGenre rows whose genre is called `name`. */
  function SongsOfGenre(links: seq<(nat, nat)>, genres: seq<Genre>, name: string): nat {
    if |links| == 0 then 0
    else
      SongsOfGenre(links[..|links| - 1], genres, name)
        + if GenreName(genres, links[|links| - 1].1) == Some(name) then 1 else 0
  }

  lemma {:induction false} GenreKeysCount(links: seq<(nat, nat)>, genres: seq<Genre>)
    ensures forall k | k in GenreKeys(links, genres) :: k.1 == ""
    ensures forall a :: Count(GenreKeys(links, genres), (a, "")) == SongsOfGenre(links, genres, a)
  {
    if |links| > 0 {
      GenreKeysCount(links[..|links| - 1], genres);
    }
  }

  /** get_top_song_genres: the `n` genres linked to the most songs, singles
      and album tracks alike, as (genre, number of songs), most songs first and
      then alphabetically; a genre left out has fewer songs than every listed
      one, or as many and a later name. */
  function TopSongGenres(db: Db, n: nat): (r: seq<(string, nat)>)
    ensures |r| <= n
    ensures forall i | 0 <= i < |r| :: r[i].1 == SongsOfGenre(db.songGenres, db.genres, r[i].0) > 0
    ensures forall i, j | 0 <= i < j < |r| :: r[i].1 > r[j].1 || (r[i].1 == r[j].1 && Less(r[i].0, r[j].0))
    ensures forall g | SongsOfGenre(db.songGenres, db.genres, g) > 0 && (forall i | 0 <= i < |r| :: r[i].0 != g) ::
              |r| == n && forall i | 0 <= i < |r| ::
                r[i].1 > SongsOfGenre(db.songGenres, db.genres, g)
                || (r[i].1 == SongsOfGenre(db.songGenres, db.genres, g) && Less(r[i].0, g))
  {
    var ks := GenreKeys(db.songGenres, db.genres);
    GenreKeysCount(db.songGenres, db.genres);
    RankNamed(ks, n, g => SongsOfGenre(db.songGenres, db.genres, g));
    Named(Rank(ks, n))
  }

  // ------------------------------------------------ album and single artists

  /** get_album_and_single_artists: exactly the artists that own an album and
      a single. */
  function AlbumAndSingleArtists(db: Db): (r: set<string>)
    ensures forall a :: a in r <==>
              (exists al | al in db.albums :: al.artist == a) && (exists s | s in db.songs :: s.album.None? && s.artist == a)
  {
    set s, al | s in db.songs && al in db.albums && s.album.None? && s.artist == al.artist :: s.artist
  }

  // ----------------------------------------------------- most rated songs

  /** The (title, artist) of the song of every rating given in [start, end],
      one per rating; a rating of a song that does not exist is dropped. */
  function RatedKeys(ratings: seq<Rating>, songs: seq<Song>, start: int, end: int): seq<Key> {
    if |ratings| == 0 then []
    else
      var x := ratings[|ratings| - 1];
      var s := SongById(songs, x.song);
      RatedKeys(ratings[..|ratings| - 1], songs, start, end)
        + if start <= x.year <= end && s.Some? then [(s.value.title, s.value.artist)] else []
  }

  /** Number of ratings given in [start, end] to the song with this title
      and artist. */
  function RatingsOf(ratings: seq<Rating>, songs: seq<Song>, title: string, artist: string, start: int, end: int): nat {
    if |ratings| == 0 then 0
    else
      var x := ratings[|ratings| - 1];
      var s := SongById(songs, x.song);
      RatingsOf(ratings[..|ratings| - 1], songs, title, artist, start, end)
        + if start <= x.year <= end && s.Some? && s.value.title == title && s.value.artist == artist then 1 else 0
  }

  lemma {:induction false} RatedKeysCount(ratings: seq<Rating>, songs: seq<Song>, start: int, end: int)
    ensures forall t, a :: Count(RatedKeys(ratings, songs, start, end), (t, a)) == RatingsOf(ratings, songs, t, a, start, end)
  {
    if |ratings| > 0 {
      RatedKeysCount(ratings[..|ratings| - 1], songs, start, end);
    }
  }

  /** get_most_rated_songs: the `n` songs rated most often in [start, end],
      as (title, artist, number of ratings), most ratings first, then by title
      and then by artist; a song left out has fewer ratings than every listed
      one, or as many and a later (title, artist). */
  function MostRatedSongs(db: Db, start: int, end: int, n: nat): (r: seq<(string, string, nat)>)
    ensures |r| <= n
    ensures forall i | 0 <= i < |r| :: r[i].2 == RatingsOf(db.ratings, db.songs, r[i].0, r[i].1, start, end) > 0
    ensures forall i, j | 0 <= i < j < |r| ::
              r[i].2 > r[j].2 || (r[i].2 == r[j].2 && KeyLess((r[i].0, r[i].1), (r[j].0, r[j].1)))
    ensures forall t, a | RatingsOf(db.ratings, db.songs, t, a, start, end) > 0
                          && (forall i | 0 <= i < |r| :: (r[i].0, r[i].1) != (t, a)) ::
              |r| == n && forall i | 0 <= i < |r| ::
                r[i].2 > RatingsOf(db.ratings, db.songs, t, a, start, end)
                || (r[i].2 == RatingsOf(db.ratings, db.songs, t, a, start, end) && KeyLess((r[i].0, r[i].1), (t, a)))
  {
    var ks := RatedKeys(db.ratings, db.songs, start, end);
    RatedKeysCount(db.ratings, db.songs, start, end);
    RankTripled(ks, n, (t, a) => RatingsOf(db.ratings, db.songs, t, a, start, end));
    Tripled(Rank(ks, n))
  }

  // ---------------------------------------------------- most engaged users

  /** The user of every rating given in [start, end], one per rating. */
  function EngagedKeys(ratings: seq<Rating>, start: int, end: int): seq<Key> {
    if |ratings| == 0 then []
    else
      var x := ratings[|ratings| - 1];
      EngagedKeys(ratings[..|ratings| - 1], start, end) + if start <= x.year <= end then [(x.user, "")] else []
  }

  /** Number of ratings `user` gave in [start, end]. */
  function RatingsBy(ratings: seq<Rating>, user: string, start: int, end: int): nat {
    if |ratings| == 0 then 0
    else
      var x := ratings[|ratings| - 1];
      RatingsBy(ratings[..|ratings| - 1], user, start, end) + if x.user == user && start <= x.year <= end then 1 else 0
  }

  lemma {:induction false} EngagedKeysCount(ratings: seq<Rating>, start: int, end: int)
    ensures forall k | k in EngagedKeys(ratings, start, end) :: k.1 == ""
    ensures forall u :: Count(EngagedKeys(ratings, start, end), (u, "")) == RatingsBy(ratings, u, start, end)
  {
    if |ratings| > 0 {
      EngagedKeysCount(ratings[..|ratings| - 1], start, end);
    }
  }

  /** get_most_engaged_users: the `n` users who gave the most ratings in
      [start, end], as (username, number of ratings), most ratings first and
      then alphabetically; a user left out gave fewer ratings than every
      listed user, or as many and has a later name. */
  function MostEngagedUsers(db: Db, start: int, end: int, n: nat): (r: seq<(string, nat)>)
    ensures |r| <= n
    ensures forall i | 0 <= i < |r| :: r[i].1 == RatingsBy(db.ratings, r[i].0, start, end) > 0
    ensures forall i, j | 0 <= i < j < |r| :: r[i].1 > r[j].1 || (r[i].1 == r[j].1 && Less(r[i].0, r[j].0))
    ensures forall u | RatingsBy(db.ratings, u, start, end) > 0 && (forall i | 0 <= i < |r| :: r[i].0 != u) ::
              |r| == n && forall i | 0 <= i < |r| ::
                r[i].1 > RatingsBy(db.ratings, u, start, end)
                || (r[i].1 == RatingsBy(db.ratings, u, start, end) && Less(r[i].0, u))
  {
    var ks := EngagedKeys(db.ratings, start, end);
    EngagedKeysCount(db.ratings, start, end);
    RankNamed(ks, n, u => RatingsBy(db.ratings, u, start, end));
    Named(Rank(ks, n))
  }

  // ----------------------------------------------------------------- lemmas

  /** On tables with no rows every query comes back empty. */
  lemma EmptyTablesQueries(nextId: nat, n: nat, start: int, end: int, year: int)
    ensures var db := Empty(nextId);
      && MostProlificArtists(db, n, start, end) == []
      && ArtistsLastSingleInYear(db, year) == {}
      && TopSongGenres(db, n) == []
      && AlbumAndSingleArtists(db) == {}
      && MostRatedSongs(db, start, end, n) == []
      && MostEngagedUsers(db, start, end, n) == []
  {
  }

  /** So right after clear_database every query comes back empty. */
  lemma ClearedQueries(db: Db, n: nat, start: int, end: int, year: int)
    ensures var c := Ingest.Cleared(db);
      && MostProlificArtists(c, n, start, end) == []
      && ArtistsLastSingleInYear(c, year) == {}
      && TopSongGenres(c, n) == []
      && AlbumAndSingleArtists(c) == {}
      && MostRatedSongs(c, start, end, n) == []
      && MostEngagedUsers(c, start, end, n) == []
  {
    EmptyTablesQueries(db.nextId, n, start, end, year);
  }

  lemma {:induction false} SinglesByEmptyRange(songs: seq<Song>, artist: string, start: int, end: int)
    requires start > end
    ensures SinglesBy(songs, artist, start, end) == 0
  {
    if |songs| > 0 {
      SinglesByEmptyRange(songs[..|songs| - 1], artist, start, end);
    }
  }

  lemma {:induction false} RatingsOfEmptyRange(ratings: seq<Rating>, songs: seq<Song>, title: string, artist: string, start: int, end: int)
    requires start > end
    ensures RatingsOf(ratings, songs, title, artist, start, end) == 0
  {
    if |ratings| > 0 {
      RatingsOfEmptyRange(ratings[..|ratings| - 1], songs, title, artist, start, end);
    }
  }

  lemma {:induction false} RatingsByEmptyRange(ratings: seq<Rating>, user: string, start: int, end: int)
    requires start > end
    ensures RatingsBy(ratings, user, start, end) == 0
  {
    if |ratings| > 0 {
      RatingsByEmptyRange(ratings[..|ratings| - 1], user, start, end);
    }
  }

  /** The year filters are ranges inclusive at both ends, so a range whose
      start is after its end selects nothing. */
  lemma EmptyRangeQueries(db: Db, n: nat, start: int, end: int)
    requires start > end
    ensures MostProlificArtists(db, n, start, end) == []
    ensures MostRatedSongs(db, start, end, n) == []
    ensures MostEngagedUsers(db, start, end, n) == []
  {
    var p := MostProlificArtists(db, n, start, end);
    if |p| > 0 {
      SinglesByEmptyRange(db.songs, p[0].0, start, end);
    }
    var r := MostRatedSongs(db, start, end, n);
    if |r| > 0 {
      RatingsOfEmptyRange(db.ratings, db.songs, r[0].0, r[0].1, start, end);
    }
    var u := MostEngagedUsers(db, start, end, n);
    if |u| > 0 {
      RatingsByEmptyRange(db.ratings, u[0].0, start, end);
    }
  }
}
