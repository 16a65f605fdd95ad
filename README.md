# Music catalogue, modelled in Dafny

This project models `music_db.py`, a small music catalogue kept in a relational
store. It has tables of artists, genres, albums, songs, users and ratings. The
catalogue has three kinds of operation:

- `clear_database` empties every table.
- Four batch loaders insert single songs, albums with their tracks, users and
  song ratings. Each returns the set of items it rejected.
- Six read-only queries. Four rank artists, genres, songs or users by a count,
  and two return sets of artists.

The model keeps the tables in one value, `Store.Db`:

- Artist, SongArtist and User are a set, a set and a map.
- Genre, Album, Song, SongGenre and Rating are sequences of rows.
- `nextId` is the auto-increment counter that numbers new rows.

`Store.Valid` states the schema's keys and foreign keys and the rating range.

`Ingest` gives each loader as a step function on one item, and the batch as
`Batches.Run`. `Run` is a left fold that collects the keys of rejected items.
Every step and every batch is proved to keep `Store.Valid`. Lemmas state which
items are rejected and what rows are added.

`Catalogs.Catalog` is the imperative side: a class with one field per table.
Its methods insert rows in place with loops, as the Python loaders do. Each
method is proved to end in the state the matching function of `Store` (for
the single-row inserts) or `Ingest` (for the per-item and batch loaders)
gives.

`Queries` gives the six SELECT statements as functions. Each ranking query
counts rows per key, sorts by count descending and then key ascending
(`Ranking.Rank`), and keeps the first `n`. Its contract restates the result
against a row count defined directly on the tables. `Strings` supplies the
alphabetical order used for tie-breaks and the case folding under which
usernames are unique.

## Model

| member | source | states |
|---|---|---|
| `Strings.Fold` | music_db.py:268-273 | the user key of a name has the name's length, and each of its characters is the ASCII lower-case form of the name's character at that position |
| `Strings.FoldIdempotent` | music_db.py:268-273 | folding a folded name changes nothing, so a stored key is its own key |
| `Strings.FoldIgnoresCase` | music_db.py:268-273 | two names have the same user key exactly when they differ only in ASCII letter case |
| `Strings.LessIrreflexive` | music_db.py:103 | no name sorts before itself |
| `Strings.LessTransitive` | music_db.py:103 | alphabetical order is transitive |
| `Strings.LessTotal` | music_db.py:103 | of two different names one sorts first |
| `Strings.LessAsymmetric` | music_db.py:103 | two names never sort before each other |
| `Ranking.KeyLessIrreflexive` | music_db.py:363 | no (title, artist) key sorts before itself |
| `Ranking.KeyLessTransitive` | music_db.py:363 | the key order is transitive |
| `Ranking.KeyLessTotal` | music_db.py:363 | of two different keys one sorts first |
| `Ranking.BeforeIrreflexive` | music_db.py:103 | no ranking row comes before itself |
| `Ranking.BeforeTransitive` | music_db.py:103 | "more rows, then smaller key" is transitive |
| `Ranking.BeforeTotal` | music_db.py:103 | rows of different groups are always ordered one way or the other |
| `Ranking.Distinct` | music_db.py:102 | the groups of a key list, each once, and exactly those |
| `Ranking.NoDuplicatesCard` | music_db.py:102 | a list without repeats has as many groups as elements |
| `Ranking.Tally` | music_db.py:98-102 | one row per group, carrying the number of keys in that group |
| `Ranking.Insert` | music_db.py:103 | inserting a row keeps the same rows plus one, and keeps them ranked when its group is new |
| `Ranking.Sort` | music_db.py:103 | the sort is a permutation and ranks rows of distinct groups |
| `Ranking.RankedFront` | music_db.py:103 | a row placed before the head of a ranking keeps it ranked |
| `Ranking.RankedBehind` | music_db.py:103 | a row placed after the head of a ranking, among the rows behind it, keeps it ranked when its group is new |
| `Ranking.FirstKeyApart` | music_db.py:103 | with distinct groups, the first row's group is not among any reordering of the others |
| `Ranking.Ordered` | music_db.py:98-103 | every group exactly once, with its size, in ranking order |
| `Ranking.PrefixBeatsRest` | music_db.py:104 | a group missing from a full prefix ranks after every row of that prefix |
| `Ranking.Rank` | music_db.py:97-105 | min(n, number of groups) rows, ranked, each a group with its size; an omitted group means n rows were listed, all ranked before it |
| `Ranking.RankNamed` | music_db.py:97-105 | Rank restated for one-name groups against any count function that agrees with the group sizes: at most n pairs, counts positive and exact, ordered by count then name, omitted names rank after all n listed |
| `Ranking.RankTripled` | music_db.py:357-365 | Rank restated over (title, artist, count) triples, against any count function that agrees with the group sizes |
| `Store.GenreId` | music_db.py:150 | the id found belongs to a genre of that name; none is found exactly when no genre has it |
| `Store.GenreName` | music_db.py:227-230 | the name found belongs to a genre with that id; none exactly when no genre has the id |
| `Store.FindSong` | music_db.py:311-317 | the song found has that title and artist; none exactly when no song has both |
| `Store.SongById` | music_db.py:359-360 | the song found has that id; none exactly when no song has it |
| `Store.FindAlbum` | music_db.py:157-163 | the album found has that title and artist; none exactly when no album has both |
| `Store.AddGenre` | music_db.py:149 | afterwards the genre exists and the genre names are the old ones plus this one; the tables are unchanged, or one genre with the next id was appended and the counter advanced |
| `Store.AddGenres` | music_db.py:42-43 | every listed genre exists afterwards and the genre names are exactly the old ones plus the listed ones; only Genre and the counter change, and existing genres stay |
| `Store.AddGenreIdempotent` | music_db.py:149 | inserting the same genre twice is inserting it once |
| `Store.AddGenresIdempotent` | music_db.py:42-43 | inserting the same genre list twice is inserting it once |
| `Store.AddGenresNoop` | music_db.py:42-43 | genres that all exist already change nothing |
| `Store.EmptyValid` | music_db.py:3-25 | empty tables satisfy every key, foreign key and range constraint |
| `Store.AddArtistValid` | music_db.py:39 | inserting an artist keeps the tables consistent |
| `Store.AddGenreValid` | music_db.py:43 | inserting a genre keeps the tables consistent |
| `Store.AddGenresValid` | music_db.py:42-43 | inserting a list of genres keeps the tables consistent |
| `Store.NewSongValid` | music_db.py:45-50 | a song with a new (title, artist), an existing artist and an existing album (if any) keeps the tables consistent |
| `Store.NewAlbumValid` | music_db.py:168-173 | an album with a new (title, artist), an existing artist and genre keeps the tables consistent |
| `Store.LinkValid` | music_db.py:74-78 | linking an existing song to an existing genre keeps the tables consistent, with no repeated link |
| `Batches.Run` | music_db.py:36 | every rejected key is the key of some item of the batch |
| `Batches.RunAppend` | music_db.py:36 | a batch one item longer is the shorter batch followed by one step |
| `Batches.RunTakes` | music_db.py:36-54 | a step that takes each item's identity makes the batch take exactly its items' identities |
| `Batches.TakenAtLast` | music_db.py:45-54 | the last item finds its identity taken exactly when the state before the batch or an earlier item took it |
| `Batches.RunOutcome` | music_db.py:36-54 | with a step that rejects exactly the items whose identity is taken, the batch rejects exactly the items whose identity was taken before the batch or by an earlier item |
| `Batches.RejectedAppend` | music_db.py:52-54 | one more item adds its key to the rejected set exactly when its identity is taken |
| `Batches.RunPreserves` | music_db.py:36 | a property every step keeps holds after the whole batch |
| `Ingest.LinkGenres` | music_db.py:66-78 | only SongGenre changes |
| `Ingest.GenreLinksAppend` | music_db.py:66-78 | one more genre name adds the link to its genre when the genre exists, and nothing otherwise |
| `Ingest.LinkAdds` | music_db.py:74-77 | INSERT IGNORE adds its pair to the set of links, changes nothing else, and never stores a pair twice |
| `Ingest.LinkGenresLinks` | music_db.py:66-78 | afterwards SongGenre holds the old links plus one link from the song to each listed genre that exists, and never a repeated link |
| `Ingest.SingleStepOutcome` | music_db.py:36-84 | Artist gains exactly the item's artist and Genre exactly its genre names; the single is rejected exactly when its (title, artist) is a song; if rejected, Song, SongGenre and SongArtist are unchanged; if accepted, exactly one song with no album and a fresh id is appended, linked to every listed genre and to its artist |
| `Ingest.SingleStepTables` | music_db.py:38-43 | a single adds exactly its artist and its genre names, every listed genre exists afterwards, and Album, User and Rating are unchanged |
| `Ingest.SingleRejected` | music_db.py:45-54 | a single whose (title, artist) is already a song is rejected and leaves Song, SongGenre and SongArtist unchanged |
| `Ingest.SingleAccepted` | music_db.py:45-84 | a single whose (title, artist) is new is accepted as exactly one new song with no album and an id no existing song has, plus one SongArtist row linking it to its artist |
| `Ingest.SingleAcceptedLinks` | music_db.py:67-78 | when a single is accepted, SongGenre gains exactly the links from the new song to the genre of each listed name |
| `Ingest.SingleStepValid` | music_db.py:36-84 | one single keeps the tables consistent |
| `Ingest.NewSingleValid` | music_db.py:45-84 | inserting an accepted single and linking it to its genres and artist keeps the tables consistent |
| `Ingest.LinkGenresValid` | music_db.py:66-78 | linking an existing song to its genres keeps the tables consistent |
| `Ingest.LoadSinglesValid` | music_db.py:28-87 | a batch of singles keeps the tables consistent |
| `Ingest.SingleStepKeys` | music_db.py:45-54 | after a single its (title, artist) is a song and no other pair appeared; the item is rejected exactly when the pair was a song before |
| `Ingest.LoadSinglesOutcome` | music_db.py:36-54 | after a batch the song pairs are the old ones plus the items' pairs; the rejects are exactly the pairs of items that found their pair already a song, from before or from an earlier item |
| `Ingest.SinglesTakePairs` | music_db.py:45-54 | the single step rejects exactly on a taken pair and takes its pair |
| `Ingest.SingleResubmitRejected` | music_db.py:45-54 | submitting the same single again is rejected and adds no song |
| `Ingest.AddTrackEffect` | music_db.py:176-208 | a colliding track changes nothing; a new one appends one song of the album with the next id and its genre link |
| `Ingest.AddTracks` | music_db.py:176-208 | only Song, SongGenre, SongArtist and the counter change; existing songs stay as they were |
| `Ingest.AddTrackNewSong` | music_db.py:176-187 | the song one track adds, if any, belongs to the album, has its year, artist and title, the next id and a pair that was not a song |
| `Ingest.AddTracksNewSongs` | music_db.py:176-187 | every song the tracks add belongs to the album, has its year and artist, one of its titles, a fresh id and a pair that was not a song |
| `Ingest.TitleKeysAppend` | music_db.py:176-187 | one more track title adds exactly its (title, artist) pair |
| `Ingest.AddTrackKeys` | music_db.py:176-187 | after one track its (title, artist) is a song and no other pair appeared |
| `Ingest.AddTracksKeys` | music_db.py:176-187 | after the tracks every track title is a song of the artist, and no other pair appeared |
| `Ingest.TrackLinksAppend` | music_db.py:197-201 | the genre links of two runs of songs are those of each run |
| `Ingest.AddTrackLink` | music_db.py:197-201 | one track adds a SongGenre row exactly for the song it adds |
| `Ingest.AddTracksLinks` | music_db.py:197-201 | the only SongGenre rows added link each added song to the album's genre |
| `Ingest.AlbumStepRejected` | music_db.py:145-166 | an album whose (title, artist) exists is rejected; no album, song or link is added; Artist gains exactly its artist and Genre exactly its genre, which exists afterwards |
| `Ingest.AlbumStepAccepted` | music_db.py:145-208 | a new album is accepted with exactly one new Album row with a fresh id; Artist gains exactly its artist and Genre exactly its genre; each non-colliding track becomes a song whose album is that new row, with its year and only its genre link; colliding tracks are skipped; existing songs are kept |
| `Ingest.AddTrackValid` | music_db.py:176-208 | one track of an existing album keeps the tables consistent |
| `Ingest.AddTracksValid` | music_db.py:176-208 | adding the tracks of an existing album keeps the tables consistent |
| `Ingest.NewAlbumTracksValid` | music_db.py:165-208 | inserting an accepted album with an existing artist and genre, then its tracks, keeps the tables consistent |
| `Ingest.AlbumStepValid` | music_db.py:144-208 | one album keeps the tables consistent |
| `Ingest.LoadAlbumsValid` | music_db.py:131-211 | a batch of albums keeps the tables consistent |
| `Ingest.AlbumStepKeys` | music_db.py:157-173 | after an album item its (title, artist) is an album and no other pair appeared; it is rejected exactly when the pair was an album before |
| `Ingest.LoadAlbumsOutcome` | music_db.py:144-173 | after a batch the album pairs are the old ones plus the items' pairs; the rejects are exactly the pairs already albums before or added by an earlier item |
| `Ingest.AlbumsTakePairs` | music_db.py:157-173 | the album step rejects exactly on a taken pair and takes its pair |
| `Ingest.AlbumResubmitRejected` | music_db.py:157-166 | submitting the same album again is rejected and adds no album and no song |
| `Ingest.UserStepOutcome` | music_db.py:268-273 | a username is rejected exactly when its folded form is a user; then nothing changes; otherwise exactly that user is added and User grows by one |
| `Ingest.UsersTakeKeys` | music_db.py:268-273 | the user step rejects exactly on a taken folded name and takes it |
| `Ingest.LoadUsersOutcome` | music_db.py:268-273 | after a batch the user keys are the old ones plus the folded names; a name is rejected exactly when its folded form was a user before or the folded form of an earlier name |
| `Ingest.LoadUsersKeeps` | music_db.py:268-273 | only User changes, and registered users keep their spelling |
| `Ingest.UserStepValid` | music_db.py:270 | one username keeps the tables consistent |
| `Ingest.LoadUsersValid` | music_db.py:257-276 | a batch of usernames keeps the tables consistent |
| `Ingest.UserCaseVariantRejected` | music_db.py:268-273 | once a name is registered, any case variant of it is rejected and User is left alone |
| `Ingest.RatingStepOutcome` | music_db.py:298-337 | a rating is accepted exactly when its value is in [1,5], its user exists, its song exists and that user has not rated it; then exactly one Rating row for that song is added and nothing else changes; otherwise nothing changes |
| `Ingest.RatingOutOfRangeRejected` | music_db.py:300-302 | a value outside [1,5] is rejected before anything else is looked at |
| `Ingest.RatingCheckOrder` | music_db.py:304-330 | an unknown user is reported before an unknown song, and an unknown song before a repeated rating |
| `Ingest.RatingStepValid` | music_db.py:298-337 | one rating keeps the tables consistent |
| `Ingest.RatingAppendValid` | music_db.py:333-337 | a rating in range, by an existing user, of an existing song the user has not rated, keeps the tables consistent |
| `Ingest.LoadRatingsValid` | music_db.py:279-339 | a batch of ratings keeps the tables consistent |
| `Ingest.RatingResubmitRejected` | music_db.py:322-330 | an accepted rating submitted again is rejected |
| `Ingest.Cleared` | music_db.py:3-25 | every table is empty and consistent; the id counter is kept |
| `Catalogs.Catalog.constructor` | music_db.py:3-25 | a new catalogue has empty, consistent tables |
| `Catalogs.Catalog.ClearDatabase` | music_db.py:3-25 | clearing leaves the tables of `Ingest.Cleared` |
| `Catalogs.Catalog.EnsureArtist` | music_db.py:39 | the artist is added if absent |
| `Catalogs.Catalog.EnsureGenre` | music_db.py:43 | the tables become those of `Store.AddGenre` |
| `Catalogs.Catalog.EnsureGenres` | music_db.py:42-43 | the tables become those of `Store.AddGenres` |
| `Catalogs.Catalog.InsertSong` | music_db.py:45-50 | one song is appended with the next id, which is returned |
| `Catalogs.Catalog.LinkSongGenre` | music_db.py:74-78 | the link is added if absent |
| `Catalogs.Catalog.LinkSongGenres` | music_db.py:66-78 | the tables become those of `Ingest.LinkGenres` |
| `Catalogs.Catalog.LoadSingle` | music_db.py:36-84 | tables and verdict are those of the single step |
| `Catalogs.Catalog.LoadSingleSongs` | music_db.py:28-87 | tables and rejects are those of `Ingest.LoadSingles`, and stay consistent |
| `Catalogs.Catalog.LoadTrack` | music_db.py:176-208 | the tables become those of `Ingest.AddTrack` |
| `Catalogs.Catalog.InsertAlbum` | music_db.py:166-171 | one album is appended with the next id, which is returned |
| `Catalogs.Catalog.LoadTracks` | music_db.py:173-208 | the tables become those of `Ingest.AddTracks` |
| `Catalogs.Catalog.LoadAlbum` | music_db.py:144-208 | tables and verdict are those of the album step |
| `Catalogs.Catalog.LoadAlbums` | music_db.py:131-211 | tables and rejects are those of `Ingest.LoadAlbums`, and stay consistent |
| `Catalogs.Catalog.LoadUsers` | music_db.py:257-276 | tables and rejects are those of `Ingest.LoadUsers`, and stay consistent |
| `Catalogs.Catalog.LoadRating` | music_db.py:298-337 | tables and verdict are those of the rating step |
| `Catalogs.Catalog.LoadSongRatings` | music_db.py:279-339 | tables and rejects are those of `Ingest.LoadRatings`, and stay consistent |
| `Queries.ProlificKeysCount` | music_db.py:98-102 | each artist occurs among the grouped keys as often as it has singles in the range |
| `Queries.MostProlificArtists` | music_db.py:90-107 | at most n (artist, singles in range) pairs, each count exact and positive, ordered by count then name; an omitted artist with singles means n were listed, all ranked before it |
| `Queries.LastSingleYear` | music_db.py:120-126 | no year exactly when the artist has no single; otherwise the year of one of its singles and no single is later |
| `Queries.ArtistsLastSingleInYear` | music_db.py:110-128 | an artist is listed exactly when it released a single in that year and none later |
| `Queries.GenreKeysCount` | music_db.py:227-230 | each genre name occurs among the grouped keys as often as SongGenre rows link to it |
| `Queries.TopSongGenres` | music_db.py:214-235 | at most n (genre, songs) pairs, each count exact and positive, ordered by count then name; an omitted genre with songs means n were listed, all ranked before it |
| `Queries.AlbumAndSingleArtists` | music_db.py:238-254 | an artist is listed exactly when it owns an album and a single |
| `Queries.RatedKeysCount` | music_db.py:358-361 | each (title, artist) occurs among the grouped keys as often as its song was rated in the range |
| `Queries.MostRatedSongs` | music_db.py:342-367 | at most n (title, artist, ratings) triples, counts exact and positive, ordered by count then title then artist; an omitted rated song means n were listed, all ranked before it |
| `Queries.EngagedKeysCount` | music_db.py:385-388 | each user occurs among the grouped keys as often as it rated in the range |
| `Queries.MostEngagedUsers` | music_db.py:370-393 | at most n (user, ratings) pairs, counts exact and positive, ordered by count then name; an omitted rating user means n were listed, all ranked before it |
| `Queries.EmptyTablesQueries` | music_db.py:3-25 | on empty tables every query is empty |
| `Queries.ClearedQueries` | music_db.py:3-25 | right after clearing every query is empty |
| `Queries.SinglesByEmptyRange` | music_db.py:101 | no single falls in a year range whose start is after its end |
| `Queries.RatingsOfEmptyRange` | music_db.py:362 | no rating falls in a year range whose start is after its end |
| `Queries.RatingsByEmptyRange` | music_db.py:387 | no rating falls in a year range whose start is after its end |
| `Queries.EmptyRangeQueries` | music_db.py:101 | a year range whose start is after its end makes the three year-filtered rankings empty |

## Left out

- The store itself is left out: the connection, cursors, `commit`, SQL text and engine errors. No operation models a failing store.
- Dates are kept as their year only, because every query looks at the year alone. Date strings are never parsed or checked.
- Only usernames compare case-insensitively, by ASCII lower-casing. Titles, artist names and genre names compare exactly. The engine's collation also folds non-ASCII letters and ignores trailing spaces; that is not modelled.
- A rating is stored under the folded username, not under the spelling submitted. So `Queries.MostEngagedUsers` reports the folded name, where the engine reports one spelling from the group.
- One id counter numbers genres, albums and songs. The engine keeps one counter per table. Ids matter here only for uniqueness and equality.
- The counter survives `clear_database`, as it does under DELETE, so ids are not reset. `clear_database` also clears SongArtist, as `music_db.py` does.
- After an insert, the source reads the new song id back with a SELECT (music_db.py:57-64 and 188-195). The model uses the id it just assigned, so the "row not found" branches cannot happen.
- The album loader's "genre not found" branch (music_db.py:152-154) cannot happen right after the genre insert. `Ingest.AlbumStep` keeps it as a rejecting case, and no proof relies on reaching it.
- The engine's duplicate-key exception becomes an explicit check before the insert.
- SongArtist is written but never read by any query, so it is modelled as a set that nothing reads.
- `n` is a natural number. A negative LIMIT is a syntax error in the engine, and no query result is defined for it.
- Queries.MostRatedSongs: songs tied on count and title are further ordered by artist. The SQL leaves their order open, so this is one of the orders it allows.
- `Queries.MostRatedSongs` groups ratings by the song's (title, artist), not by song id. Under `Store.Valid` that pair identifies the song, so the groups are the same.
- VARCHAR length limits, cascade deletes and `main` are not modelled. The test scripts and the separate stub module `music_db_test.py` are not part of this model.
