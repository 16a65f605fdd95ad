/** The catalogue as the loaders see it: one object holding every table, whose
    methods insert and delete rows in place. Each method is proved to leave the
    tables as the corresponding function of the Store and Ingest modules says,
    so the lemmas proved there hold of it. */
module Catalogs {
  import opened Strings
  import opened Store
  import opened Batches
  import opened Ingest

  class Catalog {
    var artists: set<string>
    var genres: seq<Genre>
    var albums: seq<Album>
    var songs: seq<Song>
    var songGenres: seq<(nat, nat)>
    var songArtists: set<(nat, string)>
    var users: map<string, string>
    var ratings: seq<Rating>
    var nextId: nat

    /** The tables as one value. */
    function State(): Db
      reads this
    {
      Db(artists, genres, albums, songs, songGenres, songArtists, users, ratings, nextId)
    }

    /** Keys, foreign keys and the rating range all hold. */
    ghost predicate Valid()
      reads this
    {
      Store.Valid(State())
    }

    /** A fresh database: no rows, ids numbered from 1. */
    constructor()
      ensures State() == Empty(1) && Valid()
    {
      artists, genres, albums, songs := {}, [], [], [];
      songGenres, songArtists, users, ratings := [], {}, map[], [];
      nextId := 1;
      EmptyValid(1);
    }

    /** clear_database: the tables are emptied children first, Rating down to
        Genre. */
    method ClearDatabase()
      modifies this
      ensures State() == Cleared(old(State())) && Valid()
    {
      ratings := [];
      songGenres := [];
      songArtists := {};
      songs := [];
      albums := [];
      users := map[];
      artists := {};
      genres := [];
    }

    // ------------------------------------------------------------ primitives

    method EnsureArtist(name: string)
      modifies this
      ensures State() == AddArtist(old(State()), name)
    {
      artists := artists + {name};
    }

    method EnsureGenre(name: string)
      modifies this
      ensures State() == AddGenre(old(State()), name)
    {
      if GenreId(genres, name).None? {
        genres := genres + [Genre(nextId, name)];
        nextId := nextId + 1;
      }
    }

    method EnsureGenres(names: seq<string>)
      modifies this
      ensures State() == AddGenres(old(State()), names)
    {
      for j := 0 to |names|
        invariant State() == AddGenres(old(State()), names[..j])
      {
        assert names[..j + 1][..j] == names[..j];
        EnsureGenre(names[j]);
      }
      assert names[..|names|] == names;
    }

    /** Inserts a song with the next id and returns that id. */
    method InsertSong(title: string, year: int, artist: string, album: Option<nat>) returns (id: nat)
      modifies this
      ensures State() == NewSong(old(State()), title, year, artist, album) && id == old(nextId)
    {
      id := nextId;
      songs := songs + [Song(id, title, year, artist, album)];
      nextId := nextId + 1;
    }

    method LinkSongGenre(song: nat, genre: nat)
      modifies this
      ensures State() == Link(old(State()), song, genre)
    {
      if (song, genre) !in songGenres {
        songGenres := songGenres + [(song, genre)];
      }
    }

    // ---------------------------------------------------------- single songs

    /** Links `song` to the genre of each name, skipping names with no genre. */
    method LinkSongGenres(song: nat, names: seq<string>)
      modifies this
      ensures State() == LinkGenres(old(State()), song, names)
    {
      for j := 0 to |names|
        invariant State() == LinkGenres(old(State()), song, names[..j])
      {
        assert names[..j + 1][..j] == names[..j];
        var g := GenreId(genres, names[j]);
        if g.Some? {
          LinkSongGenre(song, g.value);
        }
      }
      assert names[..|names|] == names;
    }

    /** One item of load_single_songs; returns whether it was rejected. */
    method LoadSingle(it: SingleItem) returns (rejected: bool)
      modifies this
      ensures (State(), rejected) == SingleStep(old(State()), it)
    {
      EnsureArtist(it.artist);
      EnsureGenres(it.genres);
      if FindSong(songs, it.title, it.artist).Some? {
        return true;
      }
      var id := InsertSong(it.title, it.year, it.artist, None);
      LinkSongGenres(id, it.genres);
      songArtists := songArtists + {(id, it.artist)};
      rejected := false;
    }

    /** load_single_songs: returns the (title, artist) pairs it rejected. */
    method LoadSingleSongs(items: seq<SingleItem>) returns (rejects: set<(string, string)>)
      requires Valid()
      modifies this
      ensures (State(), rejects) == LoadSingles(old(State()), items) && Valid()
    {
      rejects := {};
      for i := 0 to |items|
        invariant (State(), rejects) == LoadSingles(old(State()), items[..i])
      {
        RunAppend(old(State()), items, i, SingleStep, SingleKey);
        var rejected := LoadSingle(items[i]);
        if rejected {
          rejects := rejects + {SingleKey(items[i])};
        }
      }
      assert items[..|items|] == items;
      LoadSinglesValid(old(State()), items);
    }

    // ---------------------------------------------------------------- albums

    /** One track of an accepted album. */
    method LoadTrack(album: nat, genre: nat, artist: string, year: int, title: string)
      modifies this
      ensures State() == AddTrack(old(State()), album, genre, artist, year, title)
    {
      if FindSong(songs, title, artist).Some? {
        return;
      }
      var id := InsertSong(title, year, artist, Some(album));
      LinkSongGenre(id, genre);
      songArtists := songArtists + {(id, artist)};
    }

    /** Inserts an album with the next id and returns that id. */
    method InsertAlbum(title: string, year: int, artist: string, genre: nat) returns (id: nat)
      modifies this
      ensures State() == NewAlbum(old(State()), title, year, artist, genre) && id == old(nextId)
    {
      id := nextId;
      albums := albums + [Album(id, title, year, artist, genre)];
      nextId := nextId + 1;
    }

    /** The tracks of an accepted album, in order. */
    method LoadTracks(album: nat, genre: nat, artist: string, year: int, titles: seq<string>)
      modifies this
      ensures State() == AddTracks(old(State()), album, genre, artist, year, titles)
    {
      for j := 0 to |titles|
        invariant State() == AddTracks(old(State()), album, genre, artist, year, titles[..j])
      {
        assert titles[..j + 1][..j] == titles[..j];
        LoadTrack(album, genre, artist, year, titles[j]);
      }
      assert titles[..|titles|] == titles;
    }

    /** One item of load_albums; returns whether it was rejected. */
    method LoadAlbum(it: AlbumItem) returns (rejected: bool)
      modifies this
      ensures (State(), rejected) == AlbumStep(old(State()), it)
    {
      EnsureArtist(it.artist);
      EnsureGenre(it.genre);
      var genre := GenreId(genres, it.genre).value;
      if FindAlbum(albums, it.title, it.artist).Some? {
        return true;
      }
      var album := InsertAlbum(it.title, it.year, it.artist, genre);
      LoadTracks(album, genre, it.artist, it.year, it.tracks);
      rejected := false;
    }

    /** load_albums: returns the (album title, artist) pairs it rejected. */
    method LoadAlbums(items: seq<AlbumItem>) returns (rejects: set<(string, string)>)
      requires Valid()
      modifies this
      ensures (State(), rejects) == Ingest.LoadAlbums(old(State()), items) && Valid()
    {
      rejects := {};
      for i := 0 to |items|
        invariant (State(), rejects) == Ingest.LoadAlbums(old(State()), items[..i])
      {
        RunAppend(old(State()), items, i, AlbumStep, AlbumKey);
        var rejected := LoadAlbum(items[i]);
        if rejected {
          rejects := rejects + {AlbumKey(items[i])};
        }
      }
      assert items[..|items|] == items;
      LoadAlbumsValid(old(State()), items);
    }

    // ----------------------------------------------------------------- users

    /** load_users: returns the usernames it rejected. */
    method LoadUsers(names: seq<string>) returns (rejects: set<string>)
      requires Valid()
      modifies this
      ensures (State(), rejects) == Ingest.LoadUsers(old(State()), names) && Valid()
    {
      rejects := {};
      for i := 0 to |names|
        invariant (State(), rejects) == Ingest.LoadUsers(old(State()), names[..i])
      {
        RunAppend(old(State()), names, i, UserStep, Username);
        var key := Fold(names[i]);
        if key in users {
          rejects := rejects + {names[i]};
        } else {
          users := users[key := names[i]];
        }
      }
      assert names[..|names|] == names;
      LoadUsersValid(old(State()), names);
    }

    // --------------------------------------------------------------- ratings

    /** One item of load_song_ratings; returns whether it was rejected. */
    method LoadRating(it: RatingItem) returns (rejected: bool)
      modifies this
      ensures (State(), rejected) == RatingStep(old(State()), it)
    {
      if it.value < 1 || it.value > 5 {
        return true;
      }
      var user := Fold(it.user);
      if user !in users {
        return true;
      }
      var song := FindSong(songs, it.title, it.artist);
      if song.None? {
        return true;
      }
      if HasRated(ratings, user, song.value.id) {
        return true;
      }
      ratings := ratings + [Rating(user, song.value.id, it.value, it.year)];
      rejected := false;
    }

    /** load_song_ratings: returns the (username, artist, title) triples it
        rejected. */
    method LoadSongRatings(items: seq<RatingItem>) returns (rejects: set<(string, string, string)>)
      requires Valid()
      modifies this
      ensures (State(), rejects) == LoadRatings(old(State()), items) && Valid()
    {
      rejects := {};
      for i := 0 to |items|
        invariant (State(), rejects) == LoadRatings(old(State()), items[..i])
      {
        RunAppend(old(State()), items, i, RatingStep, RatingKey);
        var rejected := LoadRating(items[i]);
        if rejected {
          rejects := rejects + {RatingKey(items[i])};
        }
      }
      assert items[..|items|] == items;
      LoadRatingsValid(old(State()), items);
    }
  }
}
