/** What each load operation does to the tables, as functions of the tables
    before it: one step per batch item, and the batch as a left fold that
    collects the rejected items. The Catalog class's methods are proved to
    follow these functions; the lemmas here state what they guarantee. */
module Ingest {
  import opened Strings
  import opened Store
  import opened Batches

  datatype SingleItem = SingleItem(title: string, genres: seq<string>, artist: string, year: int)
  datatype AlbumItem = AlbumItem(title: string, genre: string, artist: string, year: int, tracks: seq<string>)
  datatype RatingItem = RatingItem(user: string, artist: string, title: string, value: int, year: int)

  function SingleKey(it: SingleItem): (string, string) { (it.title, it.artist) }
  function AlbumKey(it: AlbumItem): (string, string) { (it.title, it.artist) }
  function RatingKey(it: RatingItem): (string, string, string) { (it.user, it.artist, it.title) }

  // ----------------------------------------------------------- single songs

  /** The (song, genre) pairs present in SongGenre. */
  function LinkSet(links: seq<(nat, nat)>): set<(nat, nat)> {
    set l | l in links
  }

  /** The SongGenre rows that link `song` to the genres named in `names`. */
  function GenreLinks(genres: seq<Genre>, song: nat, names: seq<string>): set<(nat, nat)> {
    set g | g in names && GenreId(genres, g).Some? :: (song, GenreId(genres, g).value)
  }

  /** Links `song` to the genre of each name in turn; a name without a genre
      row is passed over. */
  function LinkGenres(db: Db, song: nat, names: seq<string>): (r: Db)
    ensures r == db.(songGenres := r.songGenres)
  {
    if |names| == 0 then db
    else
      var d := LinkGenres(db, song, names[..|names| - 1]);
      match GenreId(d.genres, names[|names| - 1])
      case None => d
      case Some(id) => Link(d, song, id)
  }

  /** The links added are exactly those from `song` to the genres the names
      find, and none is added twice. */
  lemma {:induction false} LinkGenresLinks(db: Db, song: nat, names: seq<string>)
    ensures LinkSet(LinkGenres(db, song, names).songGenres) == LinkSet(db.songGenres) + GenreLinks(db.genres, song, names)
    ensures NoRepeats(db.songGenres) ==> NoRepeats(LinkGenres(db, song, names).songGenres)
  {
    if |names| > 0 {
      var init := names[..|names| - 1];
      var g := names[|names| - 1];
      LinkGenresLinks(db, song, init);
      var d := LinkGenres(db, song, init);
      assert names == init + [g];
      GenreLinksAppend(db.genres, song, init, g);
      match GenreId(d.genres, g)
      case None =>
      case Some(id) => LinkAdds(d, song, id);
    }
  }

  lemma GenreLinksAppend(genres: seq<Genre>, song: nat, init: seq<string>, g: string)
    ensures GenreLinks(genres, song, init + [g]) == GenreLinks(genres, song, init)
      + (if GenreId(genres, g).Some? then {(song, GenreId(genres, g).value)} else {})
  {
    assert forall x :: x in init + [g] <==> x in init || x == g;
  }

  /** A link adds its pair to the set of links, and never a second copy. */
  lemma LinkAdds(db: Db, song: nat, genre: nat)
    ensures Link(db, song, genre) == db.(songGenres := Link(db, song, genre).songGenres)
    ensures LinkSet(Link(db, song, genre).songGenres) == LinkSet(db.songGenres) + {(song, genre)}
    ensures NoRepeats(db.songGenres) ==> NoRepeats(Link(db, song, genre).songGenres)
  {
  }

  ghost predicate NoRepeats(links: seq<(nat, nat)>) {
    forall i, j | 0 <= i < j < |links| :: links[i] != links[j]
  }

  /** One item of load_single_songs: make sure the artist and every genre
      exist, then reject the item if its (title, artist) is already a song;
      otherwise add the song as a single and link it to its genres and artist.
      The second component is true when the item is rejected. */
  function SingleStep(db: Db, it: SingleItem): (Db, bool) {
    var d := AddGenres(AddArtist(db, it.artist), it.genres);
    if FindSong(d.songs, it.title, it.artist).Some? then (d, true)
    else
      var id := d.nextId;
      var l := LinkGenres(NewSong(d, it.title, it.year, it.artist, None), id, it.genres);
      (l.(songArtists := l.songArtists + {(id, it.artist)}), false)
  }

  /** load_single_songs over a batch: the tables afterwards and the set of
      rejected (title, artist) pairs. */
  function LoadSingles(db: Db, items: seq<SingleItem>): (Db, set<(string, string)>) {
    Run(db, items, SingleStep, SingleKey)
  }

  /** A single whose (title, artist) is new becomes exactly one new song with
      no album, linked to the genre of every listed name and to its artist;
      otherwise the item is rejected and Song, SongGenre and SongArtist are
      untouched. Either way the artist and all genres exist afterwards, and
      Artist and Genre gain nothing else. */
  lemma SingleStepOutcome(db: Db, it: SingleItem)
    requires Valid(db)
    ensures var (r, rejected) := SingleStep(db, it);
      && r.artists == db.artists + {it.artist}
      && GenreNames(r.genres) == GenreNames(db.genres) + NameSet(it.genres)
      && (forall g | g in it.genres :: GenreId(r.genres, g).Some?)
      && r.albums == db.albums && r.users == db.users && r.ratings == db.ratings
      && (rejected <==> SingleKey(it) in SongKeys(db.songs))
      && (rejected ==> r.songs == db.songs && r.songGenres == db.songGenres
                       && r.songArtists == db.songArtists)
      && (!rejected ==>
            var id := r.nextId - 1;
            && id !in SongIds(db.songs)
            && r.songs == db.songs + [Song(id, it.title, it.year, it.artist, None)]
            && LinkSet(r.songGenres) == LinkSet(db.songGenres)
                 + GenreLinks(r.genres, id, it.genres)
            && r.songArtists == db.songArtists + {(id, it.artist)})
  {
    SingleStepTables(db, it);
    if SingleKey(it) in SongKeys(db.songs) {
      SingleRejected(db, it);
    } else {
      SingleAccepted(db, it);
      SingleAcceptedLinks(db, it);
    }
  }

  lemma SingleRejected(db: Db, it: SingleItem)
    requires SingleKey(it) in SongKeys(db.songs)
    ensures var (r, rejected) := SingleStep(db, it);
      rejected && r.songs == db.songs && r.songGenres == db.songGenres && r.songArtists == db.songArtists
  {
    var s :| s in db.songs && (s.title, s.artist) == SingleKey(it);
  }

  lemma SingleAccepted(db: Db, it: SingleItem)
    requires SongsValid(db) && SingleKey(it) !in SongKeys(db.songs)
    ensures var (r, rejected) := SingleStep(db, it);
      var id := r.nextId - 1;
      && !rejected
      && id !in SongIds(db.songs)
      && r.songs == db.songs + [Song(id, it.title, it.year, it.artist, None)]
      && r.songArtists == db.songArtists + {(id, it.artist)}
  {
    var d := AddGenres(AddArtist(db, it.artist), it.genres);
    assert d.songs == db.songs && d.songArtists == db.songArtists;
    assert FindSong(d.songs, it.title, it.artist).None?;
    var id := d.nextId;
    assert id !in SongIds(db.songs) by {
      assert forall s | s in db.songs :: s.id < db.nextId <= id;
    }
    var n := NewSong(d, it.title, it.year, it.artist, None);
    var l := LinkGenres(n, id, it.genres);
    assert SingleStep(db, it).0 == l.(songArtists := l.songArtists + {(id, it.artist)});
  }

  lemma SingleAcceptedLinks(db: Db, it: SingleItem)
    requires SingleKey(it) !in SongKeys(db.songs)
    ensures var r := SingleStep(db, it).0;
      LinkSet(r.songGenres) == LinkSet(db.songGenres) + GenreLinks(r.genres, r.nextId - 1, it.genres)
  {
    var d := AddGenres(AddArtist(db, it.artist), it.genres);
    assert FindSong(d.songs, it.title, it.artist).None?;
    var n := NewSong(d, it.title, it.year, it.artist, None);
    LinkGenresLinks(n, d.nextId, it.genres);
    var l := LinkGenres(n, d.nextId, it.genres);
    assert SingleStep(db, it).0 == l.(songArtists := l.songArtists + {(d.nextId, it.artist)});
  }

  /** A single changes Artist and Genre only by its own artist and genres,
      and leaves Album, User and Rating alone. */
  lemma SingleStepTables(db: Db, it: SingleItem)
    ensures var r := SingleStep(db, it).0;
      && r.artists == db.artists + {it.artist}
      && GenreNames(r.genres) == GenreNames(db.genres) + NameSet(it.genres)
      && (forall g | g in it.genres :: GenreId(r.genres, g).Some?)
      && r.albums == db.albums && r.users == db.users && r.ratings == db.ratings
  {
    var d := AddGenres(AddArtist(db, it.artist), it.genres);
    if FindSong(d.songs, it.title, it.artist).None? {
      var n := NewSong(d, it.title, it.year, it.artist, None);
      var l := LinkGenres(n, d.nextId, it.genres);
      assert l.genres == d.genres && l.artists == d.artists;
    }
  }

  lemma SingleStepValid(db: Db, it: SingleItem)
    requires Valid(db)
    ensures Valid(SingleStep(db, it).0)
  {
    var a := AddArtist(db, it.artist);
    AddArtistValid(db, it.artist);
    var d := AddGenres(a, it.genres);
    AddGenresValid(a, it.genres);
    if FindSong(d.songs, it.title, it.artist).None? {
      NewSingleValid(d, it);
    }
  }

  /** Adding an accepted single, linked to its genres and its artist, keeps
      the tables consistent. */
  lemma NewSingleValid(d: Db, it: SingleItem)
    requires Valid(d) && it.artist in d.artists && FindSong(d.songs, it.title, it.artist).None?
    ensures var id := d.nextId;
      var l := LinkGenres(NewSong(d, it.title, it.year, it.artist, None), id, it.genres);
      Valid(l.(songArtists := l.songArtists + {(id, it.artist)}))
  {
    var id := d.nextId;
    var n := NewSong(d, it.title, it.year, it.artist, None);
    NewSongValid(d, it.title, it.year, it.artist, None);
    var l := LinkGenres(n, id, it.genres);
    assert id in SongIds(n.songs);
    LinkGenresValid(n, id, it.genres);
    var r := l.(songArtists := l.songArtists + {(id, it.artist)});
    assert SongIds(r.songs) == SongIds(n.songs);
  }

  lemma {:induction false} LinkGenresValid(db: Db, song: nat, names: seq<string>)
    requires Valid(db) && song in SongIds(db.songs)
    ensures Valid(LinkGenres(db, song, names))
  {
    if |names| > 0 {
      var init := names[..|names| - 1];
      LinkGenresValid(db, song, init);
      var d := LinkGenres(db, song, init);
      match GenreId(d.genres, names[|names| - 1])
      case None =>
      case Some(id) =>
        LinkValid(d, song, id);
    }
  }

  lemma LoadSinglesValid(db: Db, items: seq<SingleItem>)
    requires Valid(db)
    ensures Valid(LoadSingles(db, items).0)
  {
    forall t, it | Valid(t) ensures Valid(SingleStep(t, it).0) {
      SingleStepValid(t, it);
    }
    RunPreserves(db, items, SingleStep, SingleKey, Valid);
  }

  /** The (title, artist) pairs present in Song. */
  function SongPairs(db: Db): set<(string, string)> {
    SongKeys(db.songs)
  }

  /** After a single, its (title, artist) is a song, whether or not the item
      was rejected, and no other pair has appeared. */
  lemma SingleStepKeys(db: Db, it: SingleItem)
    ensures SongPairs(SingleStep(db, it).0) == SongPairs(db) + {SingleKey(it)}
    ensures SingleStep(db, it).1 == (SingleKey(it) in SongPairs(db))
  {
    var d := AddGenres(AddArtist(db, it.artist), it.genres);
    if FindSong(d.songs, it.title, it.artist).None? {
      var l := LinkGenres(NewSong(d, it.title, it.year, it.artist, None), d.nextId, it.genres);
      assert l.songs == db.songs + [Song(d.nextId, it.title, it.year, it.artist, None)];
    }
  }

  /** Over a whole batch of singles: every item's (title, artist) is a song
      afterwards and no other pair has appeared; a pair is rejected exactly
      when some item carries it while it is already a song, from before the
      call or from an earlier item of the same batch. */
  lemma LoadSinglesOutcome(db: Db, items: seq<SingleItem>)
    ensures SongPairs(LoadSingles(db, items).0) == SongPairs(db) + (set i | 0 <= i < |items| :: SingleKey(items[i]))
    ensures LoadSingles(db, items).1 == Rejected(SongKeys(db.songs), items, SingleKey, SingleKey)
  {
    SinglesTakePairs();
    RunOutcome(db, items, SingleStep, SingleKey, SingleKey, SongPairs);
  }

  lemma SinglesTakePairs()
    ensures forall t, it :: SingleStep(t, it).1 == (SingleKey(it) in SongPairs(t))
    ensures forall t, it :: SongPairs(SingleStep(t, it).0) == SongPairs(t) + {SingleKey(it)}
  {
    forall t, it ensures SingleStep(t, it).1 == (SingleKey(it) in SongPairs(t))
                    && SongPairs(SingleStep(t, it).0) == SongPairs(t) + {SingleKey(it)} {
      SingleStepKeys(t, it);
    }
  }

  /** Submitting a single a second time rejects it and leaves Song alone. */
  lemma SingleResubmitRejected(db: Db, it: SingleItem)
    ensures var d := SingleStep(db, it).0;
      SingleStep(d, it).1 && SingleStep(d, it).0.songs == d.songs
  {
    SingleStepKeys(db, it);
    SingleStepKeys(SingleStep(db, it).0, it);
  }

  // ----------------------------------------------------------------- albums

  /** One track of an accepted album: skipped when its (title, artist) is
      already a song; otherwise a new song on the album, linked to the album's
      genre and to the artist. */
  function AddTrack(db: Db, album: nat, genre: nat, artist: string, year: int, title: string): Db {
    if FindSong(db.songs, title, artist).Some? then db
    else
      var id := db.nextId;
      var l := Link(NewSong(db, title, year, artist, Some(album)), id, genre);
      l.(songArtists := l.songArtists + {(id, artist)})
  }

  /** A track is either skipped, leaving the tables as they were, or becomes
      one new song of the album with the next id and the album's genre link. */
  lemma AddTrackEffect(db: Db, album: nat, genre: nat, artist: string, year: int, title: string)
    ensures var r := AddTrack(db, album, genre, artist, year, title);
      && r == db.(songs := r.songs, songGenres := r.songGenres, songArtists := r.songArtists, nextId := r.nextId)
      && ((title, artist) in SongKeys(db.songs) ==> r == db)
      && ((title, artist) !in SongKeys(db.songs) ==>
            && r.songs == db.songs + [Song(db.nextId, title, year, artist, Some(album))]
            && r.nextId == db.nextId + 1
            && LinkSet(r.songGenres) == LinkSet(db.songGenres) + {(db.nextId, genre)})
  {
    if (title, artist) in SongKeys(db.songs) {
      var s :| s in db.songs && (s.title, s.artist) == (title, artist);
    }
  }

  /** The tracks of an accepted album, in order. */
  function AddTracks(db: Db, album: nat, genre: nat, artist: string, year: int, titles: seq<string>): (r: Db)
    ensures r == db.(songs := r.songs, songGenres := r.songGenres, songArtists := r.songArtists, nextId := r.nextId)
    ensures db.songs <= r.songs && db.nextId <= r.nextId
  {
    if |titles| == 0 then db
    else
      var d := AddTracks(db, album, genre, artist, year, titles[..|titles| - 1]);
      AddTrackEffect(d, album, genre, artist, year, titles[|titles| - 1]);
      AddTrack(d, album, genre, artist, year, titles[|titles| - 1])
  }

  /** Each song an album's tracks add belongs to the album, carries its year,
      its artist and one of its track titles, takes a fresh id, and is new as
      a (title, artist) pair: a colliding track adds nothing. */
  lemma {:induction false} AddTracksNewSongs(db: Db, album: nat, genre: nat, artist: string, year: int, titles: seq<string>)
    ensures var r := AddTracks(db, album, genre, artist, year, titles);
      forall s | s in r.songs[|db.songs|..] ::
        && s.album == Some(album) && s.year == year && s.artist == artist && s.title in titles
        && db.nextId <= s.id < r.nextId && (s.title, s.artist) !in SongKeys(db.songs)
  {
    if |titles| > 0 {
      var init := titles[..|titles| - 1];
      var t := titles[|titles| - 1];
      AddTracksNewSongs(db, album, genre, artist, year, init);
      var d := AddTracks(db, album, genre, artist, year, init);
      AddTrackNewSong(d, album, genre, artist, year, t);
      var r := AddTrack(d, album, genre, artist, year, t);
      SuffixSplit(db.songs, d.songs, r.songs);
      assert SongKeys(db.songs) <= SongKeys(d.songs);
      assert forall x | x in init :: x in titles;
    }
  }

  /** The song one track adds, if any, is of the album, its year, artist and
      title, takes the next id and is new as a (title, artist) pair. */
  lemma AddTrackNewSong(db: Db, album: nat, genre: nat, artist: string, year: int, title: string)
    ensures var r := AddTrack(db, album, genre, artist, year, title);
      && db.songs <= r.songs && db.nextId <= r.nextId
      && forall s | s in r.songs[|db.songs|..] ::
           && s.album == Some(album) && s.year == year && s.artist == artist && s.title == title
           && db.nextId <= s.id < r.nextId && (s.title, s.artist) !in SongKeys(db.songs)
  {
    AddTrackEffect(db, album, genre, artist, year, title);
    var r := AddTrack(db, album, genre, artist, year, title);
    if (title, artist) !in SongKeys(db.songs) {
      assert r.songs[|db.songs|..] == [Song(db.nextId, title, year, artist, Some(album))];
    }
  }

  /** What a longer table adds past a prefix is what a middle one adds, then
      what the longer one adds past the middle one. */
  lemma SuffixSplit<T>(a: seq<T>, b: seq<T>, c: seq<T>)
    requires a <= b <= c
    ensures c[|a|..] == b[|a|..] + c[|b|..]
  {
  }

  /** The (title, artist) pairs of the titles of one artist. */
  function TitleKeys(titles: seq<string>, artist: string): set<(string, string)> {
    set t | t in titles :: (t, artist)
  }

  lemma TitleKeysAppend(titles: seq<string>, artist: string)
    requires |titles| > 0
    ensures TitleKeys(titles, artist)
         == TitleKeys(titles[..|titles| - 1], artist) + {(titles[|titles| - 1], artist)}
  {
    var init := titles[..|titles| - 1];
    assert titles == init + [titles[|titles| - 1]];
    assert forall x :: x in titles <==> x in init || x == titles[|titles| - 1];
  }

  /** After one track its (title, artist) is a song, and no other pair has
      appeared. */
  lemma AddTrackKeys(db: Db, album: nat, genre: nat, artist: string, year: int, title: string)
    ensures SongKeys(AddTrack(db, album, genre, artist, year, title).songs) == SongKeys(db.songs) + {(title, artist)}
  {
    AddTrackEffect(db, album, genre, artist, year, title);
    if (title, artist) !in SongKeys(db.songs) {
      SongKeysAppend(db.songs, Song(db.nextId, title, year, artist, Some(album)));
    }
  }

  /** After an album's tracks every track title is a song of the artist, and
      no other (title, artist) pair has appeared. */
  lemma {:induction false} AddTracksKeys(db: Db, album: nat, genre: nat, artist: string, year: int, titles: seq<string>)
    ensures SongKeys(AddTracks(db, album, genre, artist, year, titles).songs)
         == SongKeys(db.songs) + TitleKeys(titles, artist)
  {
    if |titles| > 0 {
      var init := titles[..|titles| - 1];
      var t := titles[|titles| - 1];
      AddTracksKeys(db, album, genre, artist, year, init);
      var d := AddTracks(db, album, genre, artist, year, init);
      AddTrackKeys(d, album, genre, artist, year, t);
      TitleKeysAppend(titles, artist);
    }
  }

  /** The links from each of `songs` to `genre`. */
  function TrackLinks(songs: seq<Song>, genre: nat): set<(nat, nat)> {
    set s | s in songs :: (s.id, genre)
  }

  lemma TrackLinksAppend(a: seq<Song>, b: seq<Song>, genre: nat)
    ensures TrackLinks(a + b, genre) == TrackLinks(a, genre) + TrackLinks(b, genre)
  {
    assert forall s :: s in a + b <==> s in a || s in b;
  }

  /** The only SongGenre rows an album's tracks add link each added song to
      the album's genre. */
  lemma {:induction false} AddTracksLinks(db: Db, album: nat, genre: nat, artist: string, year: int, titles: seq<string>)
    ensures var r := AddTracks(db, album, genre, artist, year, titles);
      LinkSet(r.songGenres) == LinkSet(db.songGenres) + TrackLinks(r.songs[|db.songs|..], genre)
  {
    if |titles| > 0 {
      var init := titles[..|titles| - 1];
      var t := titles[|titles| - 1];
      AddTracksLinks(db, album, genre, artist, year, init);
      var d := AddTracks(db, album, genre, artist, year, init);
      AddTrackLink(d, album, genre, artist, year, t);
      var r := AddTrack(d, album, genre, artist, year, t);
      SuffixSplit(db.songs, d.songs, r.songs);
      TrackLinksAppend(d.songs[|db.songs|..], r.songs[|d.songs|..], genre);
    }
  }

  /** One track adds a SongGenre row exactly for the song it adds. */
  lemma AddTrackLink(db: Db, album: nat, genre: nat, artist: string, year: int, title: string)
    ensures var r := AddTrack(db, album, genre, artist, year, title);
      && db.songs <= r.songs
      && LinkSet(r.songGenres) == LinkSet(db.songGenres) + TrackLinks(r.songs[|db.songs|..], genre)
  {
    AddTrackEffect(db, album, genre, artist, year, title);
    var r := AddTrack(db, album, genre, artist, year, title);
    if (title, artist) !in SongKeys(db.songs) {
      assert r.songs[|db.songs|..] == [Song(db.nextId, title, year, artist, Some(album))];
    } else {
      assert r.songs[|db.songs|..] == [];
    }
  }

  /** One item of load_albums: make sure the artist and the genre exist; reject
      the item if the artist already has an album with that title; otherwise
      add the album and then its tracks. The second component is true when the
      item is rejected. */
  function AlbumStep(db: Db, it: AlbumItem): (Db, bool) {
    var d := AddGenre(AddArtist(db, it.artist), it.genre);
    match GenreId(d.genres, it.genre)
    case None => (d, true)   // AddGenre has just made sure of the genre
    case Some(genre) =>
      if FindAlbum(d.albums, it.title, it.artist).Some? then (d, true)
      else
        var id := d.nextId;
        (AddTracks(NewAlbum(d, it.title, it.year, it.artist, genre), id, genre, it.artist, it.year, it.tracks), false)
  }

  /** load_albums over a batch: the tables afterwards and the set of rejected
      (album title, artist) pairs. */
  function LoadAlbums(db: Db, items: seq<AlbumItem>): (Db, set<(string, string)>) {
    Run(db, items, AlbumStep, AlbumKey)
  }

  /** An album whose (title, artist) is already an album is rejected, and no
      album, song or genre link is added for it; its artist and genre still
      exist afterwards. */
  lemma AlbumStepRejected(db: Db, it: AlbumItem)
    requires AlbumKey(it) in AlbumKeys(db.albums)
    ensures var (r, rejected) := AlbumStep(db, it);
      && rejected
      && r.artists == db.artists + {it.artist}
      && GenreNames(r.genres) == GenreNames(db.genres) + {it.genre}
      && GenreId(r.genres, it.genre).Some?
      && r.albums == db.albums && r.songs == db.songs && r.songGenres == db.songGenres
      && r.songArtists == db.songArtists && r.users == db.users && r.ratings == db.ratings
  {
    var a :| a in db.albums && (a.title, a.artist) == AlbumKey(it);
  }

  /** An album whose (title, artist) is new is accepted: exactly one Album row
      with the album's genre is added; each track whose (title, artist) is not
      yet a song becomes a song of that album with the album's year and exactly
      the album's genre link; a colliding track is skipped without rejecting
      the album; songs already present are left as they were. */
  lemma AlbumStepAccepted(db: Db, it: AlbumItem)
    requires Valid(db)
    requires AlbumKey(it) !in AlbumKeys(db.albums)
    ensures var (r, rejected) := AlbumStep(db, it);
      && !rejected
      && r.artists == db.artists + {it.artist}
      && GenreNames(r.genres) == GenreNames(db.genres) + {it.genre}
      && GenreId(r.genres, it.genre).Some?
      && var genre := GenreId(r.genres, it.genre).value;
      && |r.albums| == |db.albums| + 1
      && var album := r.albums[|db.albums|].id;
      && album !in AlbumIds(db.albums)
      && r.albums == db.albums + [Album(album, it.title, it.year, it.artist, genre)]
      && db.songs <= r.songs
      && (forall s | s in r.songs[|db.songs|..] ::
            && s.album == Some(album)
            && s.year == it.year && s.artist == it.artist && s.title in it.tracks
            && s.id !in SongIds(db.songs) && (s.title, s.artist) !in SongKeys(db.songs))
      && SongKeys(r.songs) == SongKeys(db.songs) + TitleKeys(it.tracks, it.artist)
      && LinkSet(r.songGenres) == LinkSet(db.songGenres) + TrackLinks(r.songs[|db.songs|..], genre)
      && r.users == db.users && r.ratings == db.ratings
  {
    var d := AddGenre(AddArtist(db, it.artist), it.genre);
    var genre := GenreId(d.genres, it.genre).value;
    assert FindAlbum(d.albums, it.title, it.artist).None?;
    var id := d.nextId;
    var n := NewAlbum(d, it.title, it.year, it.artist, genre);
    var r := AddTracks(n, id, genre, it.artist, it.year, it.tracks);
    AddTracksNewSongs(n, id, genre, it.artist, it.year, it.tracks);
    AddTracksKeys(n, id, genre, it.artist, it.year, it.tracks);
    AddTracksLinks(n, id, genre, it.artist, it.year, it.tracks);
    assert r.albums == db.albums + [Album(id, it.title, it.year, it.artist, genre)];
    assert n.songs == db.songs;
  }

  lemma {:induction false} AddTracksValid(db: Db, album: nat, genre: nat, artist: string, year: int, titles: seq<string>)
    requires Valid(db)
    requires album in AlbumIds(db.albums) && genre in GenreIds(db.genres) && artist in db.artists
    ensures Valid(AddTracks(db, album, genre, artist, year, titles))
  {
    if |titles| > 0 {
      var init := titles[..|titles| - 1];
      AddTracksValid(db, album, genre, artist, year, init);
      var d := AddTracks(db, album, genre, artist, year, init);
      AddTrackValid(d, album, genre, artist, year, titles[|titles| - 1]);
    }
  }

  lemma AddTrackValid(db: Db, album: nat, genre: nat, artist: string, year: int, title: string)
    requires Valid(db)
    requires album in AlbumIds(db.albums) && genre in GenreIds(db.genres) && artist in db.artists
    ensures Valid(AddTrack(db, album, genre, artist, year, title))
  {
    if FindSong(db.songs, title, artist).None? {
      var id := db.nextId;
      var n := NewSong(db, title, year, artist, Some(album));
      NewSongValid(db, title, year, artist, Some(album));
      assert id in SongIds(n.songs);
      LinkValid(n, id, genre);
      var l := Link(n, id, genre);
      var r := l.(songArtists := l.songArtists + {(id, artist)});
      assert SongIds(r.songs) == SongIds(l.songs);
    }
  }

  lemma AlbumStepValid(db: Db, it: AlbumItem)
    requires Valid(db)
    ensures Valid(AlbumStep(db, it).0)
  {
    var a := AddArtist(db, it.artist);
    AddArtistValid(db, it.artist);
    var d := AddGenre(a, it.genre);
    AddGenreValid(a, it.genre);
    var genre := GenreId(d.genres, it.genre).value;
    assert genre in GenreIds(d.genres);
    if FindAlbum(d.albums, it.title, it.artist).None? {
      NewAlbumTracksValid(d, it, genre);
      var n := NewAlbum(d, it.title, it.year, it.artist, genre);
      assert AlbumStep(db, it).0 == AddTracks(n, d.nextId, genre, it.artist, it.year, it.tracks);
    } else {
      assert AlbumStep(db, it).0 == d;
    }
  }

  /** Adding an accepted album and then its tracks keeps the tables
      consistent. */
  lemma NewAlbumTracksValid(d: Db, it: AlbumItem, genre: nat)
    requires Valid(d) && it.artist in d.artists && genre in GenreIds(d.genres)
    requires FindAlbum(d.albums, it.title, it.artist).None?
    ensures var id := d.nextId;
      Valid(AddTracks(NewAlbum(d, it.title, it.year, it.artist, genre), id, genre, it.artist, it.year, it.tracks))
  {
    var id := d.nextId;
    NewAlbumValid(d, it.title, it.year, it.artist, genre);
    var n := NewAlbum(d, it.title, it.year, it.artist, genre);
    assert id in AlbumIds(n.albums);
    AddTracksValid(n, id, genre, it.artist, it.year, it.tracks);
  }

  lemma LoadAlbumsValid(db: Db, items: seq<AlbumItem>)
    requires Valid(db)
    ensures Valid(LoadAlbums(db, items).0)
  {
    forall t, it | Valid(t) ensures Valid(AlbumStep(t, it).0) {
      AlbumStepValid(t, it);
    }
    RunPreserves(db, items, AlbumStep, AlbumKey, Valid);
  }

  /** The (title, artist) pairs present in Album. */
  function AlbumPairs(db: Db): set<(string, string)> {
    AlbumKeys(db.albums)
  }

  /** After an album item its (title, artist) is an album, whether or not the
      item was rejected, and no other pair has appeared. */
  lemma AlbumStepKeys(db: Db, it: AlbumItem)
    ensures AlbumPairs(AlbumStep(db, it).0) == AlbumPairs(db) + {AlbumKey(it)}
    ensures AlbumStep(db, it).1 == (AlbumKey(it) in AlbumPairs(db))
  {
    var d := AddGenre(AddArtist(db, it.artist), it.genre);
    var genre := GenreId(d.genres, it.genre).value;
    if FindAlbum(d.albums, it.title, it.artist).None? {
      var n := NewAlbum(d, it.title, it.year, it.artist, genre);
      assert AddTracks(n, d.nextId, genre, it.artist, it.year, it.tracks).albums
          == db.albums + [Album(d.nextId, it.title, it.year, it.artist, genre)];
      AlbumKeysAppend(db.albums, Album(d.nextId, it.title, it.year, it.artist, genre));
    } else {
      assert AlbumStep(db, it).0.albums == db.albums;
    }
  }

  /** Over a whole batch of albums: every item's (title, artist) is an album
      afterwards and no other pair has appeared; a pair is rejected exactly
      when some item carries it while it is already an album, from before the
      call or from an earlier item of the same batch. */
  lemma LoadAlbumsOutcome(db: Db, items: seq<AlbumItem>)
    ensures AlbumPairs(LoadAlbums(db, items).0) == AlbumPairs(db) + (set i | 0 <= i < |items| :: AlbumKey(items[i]))
    ensures LoadAlbums(db, items).1 == Rejected(AlbumKeys(db.albums), items, AlbumKey, AlbumKey)
  {
    AlbumsTakePairs();
    RunOutcome(db, items, AlbumStep, AlbumKey, AlbumKey, AlbumPairs);
  }

  lemma AlbumsTakePairs()
    ensures forall t, it :: AlbumStep(t, it).1 == (AlbumKey(it) in AlbumPairs(t))
    ensures forall t, it :: AlbumPairs(AlbumStep(t, it).0) == AlbumPairs(t) + {AlbumKey(it)}
  {
    forall t, it ensures AlbumStep(t, it).1 == (AlbumKey(it) in AlbumPairs(t))
                    && AlbumPairs(AlbumStep(t, it).0) == AlbumPairs(t) + {AlbumKey(it)} {
      AlbumStepKeys(t, it);
    }
  }

  /** Submitting an album a second time rejects it and adds nothing. */
  lemma AlbumResubmitRejected(db: Db, it: AlbumItem)
    ensures var d := AlbumStep(db, it).0;
      AlbumStep(d, it).1 && AlbumStep(d, it).0.albums == d.albums && AlbumStep(d, it).0.songs == d.songs
  {
    AlbumStepKeys(db, it);
    var d := AlbumStep(db, it).0;
    AlbumStepRejected(d, it);
  }

  // ------------------------------------------------------------------ users

  /** One username of load_users: rejected when a user with the same folded
      name exists; otherwise registered under its folded name. */
  function UserStep(db: Db, name: string): (Db, bool) {
    if Fold(name) in db.users then (db, true)
    else (db.(users := db.users[Fold(name) := name]), false)
  }

  /** Users are reported back by the name as submitted. */
  function Username(name: string): string { name }

  /** load_users over a batch: the tables afterwards and the set of rejected
      usernames. */
  function LoadUsers(db: Db, names: seq<string>): (Db, set<string>) {
    Run(db, names, UserStep, Username)
  }

  /** The folded usernames present in User. */
  function UserKeys(db: Db): set<string> {
    db.users.Keys
  }

  /** A username is accepted exactly when its folded form is new; only User
      changes, by exactly that one entry, and User grows by one row or none. */
  lemma UserStepOutcome(db: Db, name: string)
    ensures var (r, rejected) := UserStep(db, name);
      && r == db.(users := r.users)
      && (rejected <==> Fold(name) in db.users)
      && (rejected ==> r == db)
      && (!rejected ==> r.users == db.users[Fold(name) := name] && |r.users| == |db.users| + 1)
  {
  }

  lemma UsersTakeKeys()
    ensures forall t, u :: UserStep(t, u).1 == (Fold(u) in UserKeys(t))
    ensures forall t, u :: UserKeys(UserStep(t, u).0) == UserKeys(t) + {Fold(u)}
  {
  }

  /** Over a whole batch: every submitted name is a user afterwards up to
      case and no other user has appeared; a name is rejected exactly when its
      folded form was a user before the call or the folded form of an earlier
      name of the same batch. */
  lemma LoadUsersOutcome(db: Db, names: seq<string>)
    ensures LoadUsers(db, names).0.users.Keys == db.users.Keys + (set i | 0 <= i < |names| :: Fold(names[i]))
    ensures LoadUsers(db, names).1 == Rejected(db.users.Keys, names, Username, Fold)
  {
    UsersTakeKeys();
    RunOutcome(db, names, UserStep, Username, Fold, UserKeys);
  }

  /** A user once registered keeps the spelling it was registered with, and
      only User changes. */
  lemma {:induction false} LoadUsersKeeps(db: Db, names: seq<string>)
    ensures var r := LoadUsers(db, names).0;
      r == db.(users := r.users) && forall u | u in db.users :: u in r.users && r.users[u] == db.users[u]
  {
    if |names| > 0 {
      LoadUsersKeeps(db, names[..|names| - 1]);
    }
  }

  lemma UserStepValid(db: Db, name: string)
    requires Valid(db)
    ensures Valid(UserStep(db, name).0)
  {
    FoldIdempotent(name);
  }

  lemma LoadUsersValid(db: Db, names: seq<string>)
    requires Valid(db)
    ensures Valid(LoadUsers(db, names).0)
  {
    forall t, u | Valid(t) ensures Valid(UserStep(t, u).0) {
      UserStepValid(t, u);
    }
    RunPreserves(db, names, UserStep, Username, Valid);
  }

  /** Once a name is registered, any name that differs from it only in the
      case of ASCII letters is rejected, and User is left alone. */
  lemma UserCaseVariantRejected(db: Db, name: string, variant: string)
    requires |variant| == |name|
    requires forall i | 0 <= i < |name| :: LowerChar(variant[i]) == LowerChar(name[i])
    ensures var d := UserStep(db, name).0;
      UserStep(d, variant).1 && UserStep(d, variant).0 == d
  {
    FoldIgnoresCase(variant, name);
  }

  // ---------------------------------------------------------------- ratings

  /** What load_song_ratings decides about one rating: the first check that
      fails, tried in the order the loader tries them, or the song to rate. */
  datatype Verdict = OutOfRange | UnknownUser | UnknownSong | AlreadyRated | Accepted(song: nat)

  function Check(db: Db, it: RatingItem): Verdict {
    if it.value < 1 || it.value > 5 then OutOfRange
    else if Fold(it.user) !in db.users then UnknownUser
    else match FindSong(db.songs, it.title, it.artist)
      case None => UnknownSong
      case Some(s) => if HasRated(db.ratings, Fold(it.user), s.id) then AlreadyRated else Accepted(s.id)
  }

  /** One rating of load_song_ratings: an accepted rating is appended under the
      folded username; any other verdict rejects the item. */
  function RatingStep(db: Db, it: RatingItem): (Db, bool) {
    match Check(db, it)
    case Accepted(song) => (db.(ratings := db.ratings + [Rating(Fold(it.user), song, it.value, it.year)]), false)
    case _ => (db, true)
  }

  /** load_song_ratings over a batch: the tables afterwards and the set of
      rejected (username, artist, title) triples. */
  function LoadRatings(db: Db, items: seq<RatingItem>): (Db, set<(string, string, string)>) {
    Run(db, items, RatingStep, RatingKey)
  }

  /** A rating is accepted exactly when its value is in [1,5], its user
      exists up to case, its (title, artist) is a song, and that user has not
      rated that song; then exactly one Rating row is added, for that song, and
      nothing else changes; otherwise nothing changes at all. */
  lemma RatingStepOutcome(db: Db, it: RatingItem)
    ensures var (r, rejected) := RatingStep(db, it);
      && (!rejected <==>
            && 1 <= it.value <= 5
            && Fold(it.user) in db.users
            && (it.title, it.artist) in SongKeys(db.songs)
            && !HasRated(db.ratings, Fold(it.user), FindSong(db.songs, it.title, it.artist).value.id))
      && (rejected ==> r == db)
      && (!rejected ==>
            var s := FindSong(db.songs, it.title, it.artist).value;
            && s.title == it.title && s.artist == it.artist
            && r == db.(ratings := db.ratings + [Rating(Fold(it.user), s.id, it.value, it.year)]))
  {
    if (it.title, it.artist) in SongKeys(db.songs) {
      var s :| s in db.songs && (s.title, s.artist) == (it.title, it.artist);
    }
  }

  /** A value outside [1,5] is rejected whatever else is true of the item:
      the range check comes first. */
  lemma RatingOutOfRangeRejected(db: Db, it: RatingItem)
    requires it.value < 1 || it.value > 5
    ensures Check(db, it) == OutOfRange && RatingStep(db, it) == (db, true)
  {
  }

  /** The checks after the range check, in order: an unknown user is reported
      before an unknown song, and an unknown song before a repeated rating. */
  lemma RatingCheckOrder(db: Db, it: RatingItem)
    requires 1 <= it.value <= 5
    ensures Fold(it.user) !in db.users ==> Check(db, it) == UnknownUser
    ensures Fold(it.user) in db.users && (it.title, it.artist) !in SongKeys(db.songs) ==> Check(db, it) == UnknownSong
    ensures Check(db, it) == AlreadyRated ==> Fold(it.user) in db.users && (it.title, it.artist) in SongKeys(db.songs)
  {
    if Fold(it.user) in db.users && (it.title, it.artist) in SongKeys(db.songs) {
      var s :| s in db.songs && (s.title, s.artist) == (it.title, it.artist);
    }
  }

  lemma RatingStepValid(db: Db, it: RatingItem)
    requires Valid(db)
    ensures Valid(RatingStep(db, it).0)
  {
    if Check(db, it).Accepted? {
      var s := FindSong(db.songs, it.title, it.artist).value;
      var x := Rating(Fold(it.user), s.id, it.value, it.year);
      RatingAppendValid(db, x);
    }
  }

  /** A rating in [1,5] by an existing user of an existing song that the user
      has not rated keeps the tables consistent. */
  lemma RatingAppendValid(db: Db, x: Rating)
    requires Valid(db)
    requires 1 <= x.value <= 5 && x.user in db.users && x.song in SongIds(db.songs)
    requires !HasRated(db.ratings, x.user, x.song)
    ensures Valid(db.(ratings := db.ratings + [x]))
  {
    var r := db.(ratings := db.ratings + [x]);
    assert RatingsValid(r) by {
      forall i | 0 <= i < |db.ratings| ensures (db.ratings[i].user, db.ratings[i].song) != (x.user, x.song) {
        assert db.ratings[i] in db.ratings;
      }
    }
    assert GenresValid(r) && AlbumsValid(r) && SongsValid(r) && LinksValid(r) && UsersValid(r) by {
      assert GenresValid(db) && AlbumsValid(db) && SongsValid(db) && LinksValid(db) && UsersValid(db);
    }
  }

  lemma LoadRatingsValid(db: Db, items: seq<RatingItem>)
    requires Valid(db)
    ensures Valid(LoadRatings(db, items).0)
  {
    forall t, it | Valid(t) ensures Valid(RatingStep(t, it).0) {
      RatingStepValid(t, it);
    }
    RunPreserves(db, items, RatingStep, RatingKey, Valid);
  }

  /** Submitting an accepted rating a second time rejects it. */
  lemma RatingResubmitRejected(db: Db, it: RatingItem)
    requires !RatingStep(db, it).1
    ensures RatingStep(RatingStep(db, it).0, it).1
  {
    var s := FindSong(db.songs, it.title, it.artist).value;
    var d := RatingStep(db, it).0;
    assert Rating(Fold(it.user), s.id, it.value, it.year) in d.ratings;
  }

  // ------------------------------------------------------------------ clear

  /** clear_database: every table emptied. Deleting rows does not rewind the
      auto-increment counter, so ids go on from where they were. */
  function Cleared(db: Db): (r: Db)
    ensures Valid(r)
    ensures r.nextId == db.nextId
    ensures |r.genres| == |r.albums| == |r.songs| == |r.songGenres| == |r.ratings| == 0
    ensures r.artists == {} && r.songArtists == {} && r.users == map[]
  {
    Empty(db.nextId)
  }
}
