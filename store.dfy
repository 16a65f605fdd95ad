/** The catalogue's tables as one value, the lookups the ingestion and the
    queries run against them, the insert primitives, and the invariants the
    schema's keys and foreign keys stand for. */
module Store {
  import opened Strings

  datatype Option<T> = None | Some(value: T)

  /** Dates enter the model as their year: no query looks at anything finer. */
  datatype Genre = Genre(id: nat, name: string)
  datatype Album = Album(id: nat, title: string, year: int, artist: string, genre: nat)
  /** `album == None` marks a single. */
  datatype Song = Song(id: nat, title: string, year: int, artist: string, album: Option<nat>)
  /** `user` is the case-folded username, i.e. the key of the User table. */
  datatype Rating = Rating(user: string, song: nat, value: int, year: int)

  /** All tables. `users` maps each folded username to the spelling it was
      registered with; `nextId` is the auto-increment counter that numbers new
      genres, albums and songs. */
  datatype Db = Db(
    artists: set<string>,
    genres: seq<Genre>,
    albums: seq<Album>,
    songs: seq<Song>,
    songGenres: seq<(nat, nat)>,
    songArtists: set<(nat, string)>,
    users: map<string, string>,
    ratings: seq<Rating>,
    nextId: nat)

  /** Tables with no rows; the id counter goes on from `nextId`. */
  function Empty(nextId: nat): Db {
    Db({}, [], [], [], [], {}, map[], [], nextId)
  }

  // ---------------------------------------------------------------- lookups

  function GenreId(genres: seq<Genre>, name: string): (r: Option<nat>)
    ensures r.Some? ==> Genre(r.value, name) in genres
    ensures r.None? <==> forall g | g in genres :: g.name != name
  {
    if |genres| == 0 then None
    else if genres[0].name == name then Some(genres[0].id)
    else GenreId(genres[1..], name)
  }

  function GenreName(genres: seq<Genre>, id: nat): (r: Option<string>)
    ensures r.Some? ==> Genre(id, r.value) in genres
    ensures r.None? <==> forall g | g in genres :: g.id != id
  {
    if |genres| == 0 then None
    else if genres[0].id == id then Some(genres[0].name)
    else GenreName(genres[1..], id)
  }

  function FindSong(songs: seq<Song>, title: string, artist: string): (r: Option<Song>)
    ensures r.Some? ==> r.value in songs && r.value.title == title && r.value.artist == artist
    ensures r.None? <==> forall s | s in songs :: !(s.title == title && s.artist == artist)
  {
    if |songs| == 0 then None
    else if songs[0].title == title && songs[0].artist == artist then Some(songs[0])
    else FindSong(songs[1..], title, artist)
  }

  function SongById(songs: seq<Song>, id: nat): (r: Option<Song>)
    ensures r.Some? ==> r.value in songs && r.value.id == id
    ensures r.None? <==> forall s | s in songs :: s.id != id
  {
    if |songs| == 0 then None
    else if songs[0].id == id then Some(songs[0])
    else SongById(songs[1..], id)
  }

  function FindAlbum(albums: seq<Album>, title: string, artist: string): (r: Option<Album>)
    ensures r.Some? ==> r.value in albums && r.value.title == title && r.value.artist == artist
    ensures r.None? <==> forall a | a in albums :: !(a.title == title && a.artist == artist)
  {
    if |albums| == 0 then None
    else if albums[0].title == title && albums[0].artist == artist then Some(albums[0])
    else FindAlbum(albums[1..], title, artist)
  }

  predicate HasRated(ratings: seq<Rating>, user: string, song: nat) {
    exists r | r in ratings :: r.user == user && r.song == song
  }

  function SongIds(songs: seq<Song>): set<nat> {
    set s | s in songs :: s.id
  }

  function AlbumIds(albums: seq<Album>): set<nat> {
    set a | a in albums :: a.id
  }

  function GenreIds(genres: seq<Genre>): set<nat> {
    set g | g in genres :: g.id
  }

  /** The names present in Genre. */
  function GenreNames(genres: seq<Genre>): set<string> {
    set g | g in genres :: g.name
  }

  /** The names listed in `names`. */
  function NameSet(names: seq<string>): set<string> {
    set g | g in names
  }

  lemma NameSetAppend(names: seq<string>)
    requires |names| > 0
    ensures NameSet(names) == NameSet(names[..|names| - 1]) + {names[|names| - 1]}
  {
    assert names == names[..|names| - 1] + [names[|names| - 1]];
  }

  /** The (title, artist) pairs present in Song. */
  function SongKeys(songs: seq<Song>): set<(string, string)> {
    set s | s in songs :: (s.title, s.artist)
  }

  /** The (title, artist) pairs present in Album. */
  function AlbumKeys(albums: seq<Album>): set<(string, string)> {
    set a | a in albums :: (a.title, a.artist)
  }

  lemma SongKeysAppend(songs: seq<Song>, s: Song)
    ensures SongKeys(songs + [s]) == SongKeys(songs) + {(s.title, s.artist)}
  {
  }

  lemma AlbumKeysAppend(albums: seq<Album>, a: Album)
    ensures AlbumKeys(albums + [a]) == AlbumKeys(albums) + {(a.title, a.artist)}
  {
  }

  // ------------------------------------------------------------- invariants

  ghost predicate GenresValid(db: Db) {
    && (forall g | g in db.genres :: g.id < db.nextId)
    && (forall i, j | 0 <= i < j < |db.genres| ::
          db.genres[i].id != db.genres[j].id && db.genres[i].name != db.genres[j].name)
  }

  /** Album ids are unique, (title, artist) is unique, and every album's
      artist and genre exist. */
  ghost predicate AlbumsValid(db: Db) {
    && (forall a | a in db.albums ::
          a.id < db.nextId && a.artist in db.artists && a.genre in GenreIds(db.genres))
    && (forall i, j | 0 <= i < j < |db.albums| ::
          db.albums[i].id != db.albums[j].id
          && (db.albums[i].title, db.albums[i].artist) != (db.albums[j].title, db.albums[j].artist))
  }

  /** Song ids are unique, (title, artist) is unique, every song's artist
      exists, and a track's album exists. */
  ghost predicate SongsValid(db: Db) {
    && (forall s | s in db.songs ::
          && s.id < db.nextId && s.artist in db.artists
          && (s.album.Some? ==> s.album.value in AlbumIds(db.albums)))
    && (forall i, j | 0 <= i < j < |db.songs| ::
          db.songs[i].id != db.songs[j].id
          && (db.songs[i].title, db.songs[i].artist) != (db.songs[j].title, db.songs[j].artist))
  }

  /** Every SongGenre row links an existing song to an existing genre, at most
      once; every SongArtist row names an existing song and artist. */
  ghost predicate LinksValid(db: Db) {
    && (forall l | l in db.songGenres :: l.0 in SongIds(db.songs) && l.1 in GenreIds(db.genres))
    && (forall i, j | 0 <= i < j < |db.songGenres| :: db.songGenres[i] != db.songGenres[j])
    && (forall l | l in db.songArtists :: l.0 in SongIds(db.songs) && l.1 in db.artists)
  }

  /** Usernames are unique up to case: each is stored under its folded form. */
  ghost predicate UsersValid(db: Db) {
    forall u | u in db.users :: Fold(db.users[u]) == u
  }

  /** Every rating is in [1,5], comes from an existing user, rates an existing
      song, and no user rates the same song twice. */
  ghost predicate RatingsValid(db: Db) {
    && (forall r | r in db.ratings ::
          1 <= r.value <= 5 && r.user in db.users && r.song in SongIds(db.songs))
    && (forall i, j | 0 <= i < j < |db.ratings| ::
          (db.ratings[i].user, db.ratings[i].song) != (db.ratings[j].user, db.ratings[j].song))
  }

  ghost predicate Valid(db: Db) {
    GenresValid(db) && AlbumsValid(db) && SongsValid(db) && LinksValid(db)
    && UsersValid(db) && RatingsValid(db)
  }

  // ------------------------------------------------------------- primitives

  /** INSERT IGNORE INTO Artist. */
  function AddArtist(db: Db, name: string): Db {
    db.(artists := db.artists + {name})
  }

  /** INSERT IGNORE INTO Genre: a new genre takes the next id. */
  function AddGenre(db: Db, name: string): (r: Db)
    ensures GenreId(r.genres, name).Some?
    ensures GenreNames(r.genres) == GenreNames(db.genres) + {name}
    ensures r == db || (GenreId(db.genres, name).None? && r.genres == db.genres + [Genre(db.nextId, name)]
                        && r == db.(genres := r.genres, nextId := db.nextId + 1))
  {
    if GenreId(db.genres, name).Some? then
      assert Genre(GenreId(db.genres, name).value, name) in db.genres;
      db
    else
      var r := db.(genres := db.genres + [Genre(db.nextId, name)], nextId := db.nextId + 1);
      assert Genre(db.nextId, name) in r.genres;
      r
  }

  /** Each name of `names`, in order, inserted as by AddGenre. */
  function AddGenres(db: Db, names: seq<string>): (r: Db)
    ensures forall g | g in names :: GenreId(r.genres, g).Some?
    ensures GenreNames(r.genres) == GenreNames(db.genres) + NameSet(names)
    ensures r == db.(genres := r.genres, nextId := r.nextId)
    ensures db.genres <= r.genres && db.nextId <= r.nextId
  {
    if |names| == 0 then db
    else
      var d := AddGenres(db, names[..|names| - 1]);
      var r := AddGenre(d, names[|names| - 1]);
      assert GenreNames(r.genres) == GenreNames(db.genres) + NameSet(names) by {
        NameSetAppend(names);
      }
      assert forall g | g in names :: GenreId(r.genres, g).Some? by {
        forall g | g in names ensures GenreId(r.genres, g).Some? {
          assert g in GenreNames(r.genres);
        }
      }
      r
  }

  /** INSERT INTO Song with the next id; the caller has checked (title, artist). */
  function NewSong(db: Db, title: string, year: int, artist: string, album: Option<nat>): Db {
    db.(songs := db.songs + [Song(db.nextId, title, year, artist, album)], nextId := db.nextId + 1)
  }

  /** INSERT INTO Album with the next id; the caller has checked (title, artist). */
  function NewAlbum(db: Db, title: string, year: int, artist: string, genre: nat): Db {
    db.(albums := db.albums + [Album(db.nextId, title, year, artist, genre)], nextId := db.nextId + 1)
  }

  /** INSERT IGNORE INTO SongGenre. */
  function Link(db: Db, song: nat, genre: nat): Db {
    if (song, genre) in db.songGenres then db
    else db.(songGenres := db.songGenres + [(song, genre)])
  }

  // --------------------------------------------------------------- lemmas

  /** Inserting an artist or a genre that is already there changes nothing. */
  lemma AddGenreIdempotent(db: Db, name: string)
    ensures AddGenre(AddGenre(db, name), name) == AddGenre(db, name)
  {
  }

  lemma {:induction false} AddGenresIdempotent(db: Db, names: seq<string>)
    ensures AddGenres(AddGenres(db, names), names) == AddGenres(db, names)
  {
    AddGenresNoop(AddGenres(db, names), names);
  }

  /** AddGenres is a no-op when every name already has a genre. */
  lemma {:induction false} AddGenresNoop(db: Db, names: seq<string>)
    requires forall g | g in names :: GenreId(db.genres, g).Some?
    ensures AddGenres(db, names) == db
  {
    if |names| > 0 {
      AddGenresNoop(db, names[..|names| - 1]);
      assert names[|names| - 1] in names;
    }
  }

  lemma EmptyValid(nextId: nat)
    ensures Valid(Empty(nextId))
  {
  }

  lemma AddArtistValid(db: Db, name: string)
    requires Valid(db)
    ensures Valid(AddArtist(db, name))
  {
  }

  lemma AddGenreValid(db: Db, name: string)
    requires Valid(db)
    ensures Valid(AddGenre(db, name))
  {
    var r := AddGenre(db, name);
    if r != db {
      assert GenreIds(r.genres) == GenreIds(db.genres) + {db.nextId};
    }
  }

  lemma {:induction false} AddGenresValid(db: Db, names: seq<string>)
    requires Valid(db)
    ensures Valid(AddGenres(db, names))
  {
    if |names| > 0 {
      AddGenresValid(db, names[..|names| - 1]);
      AddGenreValid(AddGenres(db, names[..|names| - 1]), names[|names| - 1]);
    }
  }

  /** A song whose (title, artist) is new, by an existing artist, on an existing
      album if any, keeps the tables consistent. */
  lemma NewSongValid(db: Db, title: string, year: int, artist: string, album: Option<nat>)
    requires Valid(db)
    requires FindSong(db.songs, title, artist).None?
    requires artist in db.artists
    requires album.Some? ==> album.value in AlbumIds(db.albums)
    ensures Valid(NewSong(db, title, year, artist, album))
  {
    var r := NewSong(db, title, year, artist, album);
    assert SongIds(r.songs) == SongIds(db.songs) + {db.nextId};
  }

  lemma NewAlbumValid(db: Db, title: string, year: int, artist: string, genre: nat)
    requires Valid(db)
    requires FindAlbum(db.albums, title, artist).None?
    requires artist in db.artists && genre in GenreIds(db.genres)
    ensures Valid(NewAlbum(db, title, year, artist, genre))
  {
    var r := NewAlbum(db, title, year, artist, genre);
    assert AlbumIds(r.albums) == AlbumIds(db.albums) + {db.nextId};
  }

  lemma LinkValid(db: Db, song: nat, genre: nat)
    requires Valid(db)
    requires song in SongIds(db.songs) && genre in GenreIds(db.genres)
    ensures Valid(Link(db, song, genre))
  {
  }
}
