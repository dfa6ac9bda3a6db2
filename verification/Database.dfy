/** The library tables and the repository operations on them. A transaction is one atomic step. */
module Database {
  import opened Common

  // ---------------------------------------------------------------------------------------------
  // Time
  // ---------------------------------------------------------------------------------------------

  /** File and system clock times are nanosecond ticks; columns hold milliseconds. */
  const TICKS_PER_MS: int := 1_000_000

  /** `duration_cast` truncates toward zero. */
  function ToEpochMillis(t: int): int
  {
    if t >= 0 then t / TICKS_PER_MS else -((-t) / TICKS_PER_MS)
  }

  function FromEpochMillis(ms: int): int { ms * TICKS_PER_MS }

  /** Milliseconds toward zero: what is cut off is less than one, and of the sign of the time. */
  lemma MillisMeaning(t: int, ms: int)
    ensures ToEpochMillis(t) == ms <==>
            if t >= 0 then 0 <= t - ms * 1_000_000 < 1_000_000 else -1_000_000 < t - ms * 1_000_000 <= 0
  {
  }

  /** A stored time reads back as itself, so a second comparison at millisecond grain sees no change. */
  lemma MillisRoundTrip(ms: int)
    ensures ToEpochMillis(FromEpochMillis(ms)) == ms
  {
  }

  // ---------------------------------------------------------------------------------------------
  // Tables
  // ---------------------------------------------------------------------------------------------

  datatype Details = Details(
    trackNumber: Option<int>, discNumber: Option<int>, year: Option<int>, genre: Option<string>,
    durationMs: int, codec: string, bitrateKbps: Option<int>, hasArtwork: bool)

  datatype Track = Track(
    root: nat, path: string, title: string, artist: Option<nat>, album: Option<nat>, details: Details,
    size: nat, hash: string, modifiedMs: int, deletedAt: Option<int>)

  datatype Root = Root(path: string, addedAt: int, lastScanAt: Option<int>, retiredAt: Option<int>)

  datatype Album = Album(title: string, artist: Option<nat>)

  datatype Playlist = Playlist(name: string, createdAt: int, updatedAt: int)

  /** `entries` maps (playlist, track) to its position. */
  datatype Db = Db(
    roots: map<nat, Root>, artists: map<nat, string>, albums: map<nat, Album>, tracks: map<nat, Track>,
    playlists: map<nat, Playlist>, entries: map<(nat, nat), int>)

  const EMPTY_DB := Db(map[], map[], map[], map[], map[], map[])

  datatype TrackUpsert = TrackUpsert(
    root: nat, path: string, title: string, artistName: Option<string>, albumTitle: Option<string>,
    albumArtist: Option<string>, details: Details, size: nat, hash: string, modifiedAt: int)

  lemma {:induction false} HasMax(s: set<nat>) returns (m: nat)
    requires s != {}
    ensures m in s && forall y | y in s :: y <= m
    decreases s
  {
    var x :| x in s;
    if s == {x} {
      m := x;
    } else {
      var n := HasMax(s - {x});
      m := if n < x then x else n;
      assert forall y | y in s :: y == x || y in s - {x};
    }
  }

  /** The rowid SQLite gives a new row: one above the largest in use. */
  function NextId(s: set<nat>): (id: nat)
    ensures id !in s && id > 0 && forall y | y in s :: y < id
  {
    if s == {} then 1
    else
      HasMaxExists(s);
      var m :| m in s && forall y | y in s :: y <= m;
      m + 1
  }

  lemma HasMaxExists(s: set<nat>)
    requires s != {}
    ensures exists m :: m in s && forall y | y in s :: y <= m
  {
    var m := HasMax(s);
  }

  // ---------------------------------------------------------------------------------------------
  // Integrity
  // ---------------------------------------------------------------------------------------------

  predicate UniqueNames(artists: map<nat, string>)
  {
    forall i, j | i in artists && j in artists && i != j :: artists[i] != artists[j]
  }

  /** One album per title and album artist, where no artist is one identity too. */
  predicate UniqueAlbums(albums: map<nat, Album>)
  {
    forall i, j | i in albums && j in albums && i != j :: albums[i] != albums[j]
  }

  predicate UniqueRoots(roots: map<nat, Root>)
  {
    forall i, j | i in roots && j in roots && i != j :: roots[i].path != roots[j].path
  }

  predicate SameKey(t: Track, root: nat, path: string) { t.root == root && t.path == path }

  predicate UniqueTracks(tracks: map<nat, Track>)
  {
    forall i, j | i in tracks && j in tracks && i != j :: !SameKey(tracks[i], tracks[j].root, tracks[j].path)
  }

  predicate Known<T>(id: Option<nat>, table: map<nat, T>)
  {
    id.Some? ==> id.value in table
  }

  predicate AlbumsResolve(albums: map<nat, Album>, artists: map<nat, string>)
  {
    forall i | i in albums :: Known(albums[i].artist, artists)
  }

  predicate TrackResolves(db: Db, t: Track)
  {
    t.root in db.roots && Known(t.artist, db.artists) && Known(t.album, db.albums)
  }

  predicate TracksResolve(db: Db)
  {
    forall i | i in db.tracks :: TrackResolves(db, db.tracks[i])
  }

  predicate EntriesResolve(db: Db)
  {
    forall e | e in db.entries :: e.0 in db.playlists && e.1 in db.tracks
  }

  /** No two tracks of one playlist share a position. */
  predicate DistinctPositions(entries: map<(nat, nat), int>)
  {
    forall e, f | e in entries && f in entries && e.0 == f.0 && e.1 != f.1 :: entries[e] != entries[f]
  }

  /** Unique keys, and every reference resolves. */
  predicate Sound(db: Db)
  {
    && UniqueNames(db.artists) && UniqueAlbums(db.albums) && UniqueRoots(db.roots) && UniqueTracks(db.tracks)
    && AlbumsResolve(db.albums, db.artists) && TracksResolve(db) && EntriesResolve(db) && DistinctPositions(db.entries)
  }

  // ---------------------------------------------------------------------------------------------
  // Artists, albums, tracks
  // ---------------------------------------------------------------------------------------------

  ghost function FindArtist(artists: map<nat, string>, name: string): (r: Option<nat>)
    ensures r.Some? ==> r.value in artists && artists[r.value] == name
    ensures r.None? ==> forall i | i in artists :: artists[i] != name
  {
    if i :| i in artists && artists[i] == name then Some(i) else None
  }

  ghost function FindAlbum(albums: map<nat, Album>, a: Album): (r: Option<nat>)
    ensures r.Some? ==> r.value in albums && albums[r.value] == a
    ensures r.None? ==> forall i | i in albums :: albums[i] != a
  {
    if i :| i in albums && albums[i] == a then Some(i) else None
  }

  ghost function FindTrack(tracks: map<nat, Track>, root: nat, path: string): (r: Option<nat>)
    ensures r.Some? ==> r.value in tracks && SameKey(tracks[r.value], root, path)
    ensures r.None? ==> forall i | i in tracks :: !SameKey(tracks[i], root, path)
  {
    if i :| i in tracks && SameKey(tracks[i], root, path) then Some(i) else None
  }

  ghost function FindRoot(roots: map<nat, Root>, path: string): (r: Option<nat>)
    ensures r.Some? ==> r.value in roots && roots[r.value].path == path
    ensures r.None? ==> forall i | i in roots :: roots[i].path != path
  {
    if i :| i in roots && roots[i].path == path then Some(i) else None
  }

  /** `resolveArtist`: find or create; a missing or empty name is no artist. */
  ghost function ResolveArtist(db: Db, name: Option<string>): (Db, Option<nat>)
  {
    if name.None? || name.value == "" then (db, None)
    else
      var found := FindArtist(db.artists, name.value);
      if found.Some? then (db, found)
      else
        var id := NextId(db.artists.Keys);
        (db.(artists := db.artists[id := name.value]), Some(id))
  }

  ghost function ResolveAlbum(db: Db, title: Option<string>, artist: Option<nat>): (Db, Option<nat>)
  {
    if title.None? || title.value == "" then (db, None)
    else
      var found := FindAlbum(db.albums, Album(title.value, artist));
      if found.Some? then (db, found)
      else
        var id := NextId(db.albums.Keys);
        (db.(albums := db.albums[id := Album(title.value, artist)]), Some(id))
  }

  /** The artist and album rows an upsert needs: the database with them, the track's artist and album. */
  ghost function ResolveNames(db: Db, data: TrackUpsert): (Db, Option<nat>, Option<nat>)
  {
    var (db1, artist) := ResolveArtist(db, data.artistName);
    var (db2, albumArtist) := if data.albumArtist.Some? then ResolveArtist(db1, data.albumArtist) else (db1, artist);
    var (db3, album) := ResolveAlbum(db2, data.albumTitle, albumArtist);
    (db3, artist, album)
  }

  function RowOf(data: TrackUpsert, artist: Option<nat>, album: Option<nat>): Track
  {
    Track(data.root, data.path, data.title, artist, album, data.details,
          data.size, data.hash, ToEpochMillis(data.modifiedAt), None)
  }

  /** Insert, or on a conflict of (root, path) overwrite the row under its old id; alive either way. */
  ghost function PutTrack(db: Db, row: Track): (Db, nat)
  {
    var found := FindTrack(db.tracks, row.root, row.path);
    var id := if found.Some? then found.value else NextId(db.tracks.Keys);
    (db.(tracks := db.tracks[id := row]), id)
  }

  ghost function Upsert(db: Db, data: TrackUpsert): (Db, nat)
  {
    var (named, artist, album) := ResolveNames(db, data);
    PutTrack(named, RowOf(data, artist, album))
  }

  function SoftDelete(db: Db, id: nat, now: int): (Db, bool)
  {
    if id in db.tracks && db.tracks[id].deletedAt.None?
    then (db.(tracks := db.tracks[id := db.tracks[id].(deletedAt := Some(ToEpochMillis(now)))]), true)
    else (db, false)
  }

  // ---------------------------------------------------------------------------------------------
  // Library roots
  // ---------------------------------------------------------------------------------------------

  /** Find or create by path; a retired root that is listed again is revived under its old id. */
  ghost function UpsertRoot(db: Db, path: string, now: int): (Db, nat)
  {
    var found := FindRoot(db.roots, path);
    if found.Some? then
      var id := found.value;
      (db.(roots := db.roots[id := db.roots[id].(retiredAt := None)]), id)
    else
      var id := NextId(db.roots.Keys);
      (db.(roots := db.roots[id := Root(path, ToEpochMillis(now), None, None)]), id)
  }

  function MarkScanned(db: Db, id: nat, now: int): Db
  {
    if id in db.roots then db.(roots := db.roots[id := db.roots[id].(lastScanAt := Some(ToEpochMillis(now)))]) else db
  }

  function Retire(db: Db, id: nat, now: int): Db
  {
    if id in db.roots then db.(roots := db.roots[id := db.roots[id].(retiredAt := Some(ToEpochMillis(now)))]) else db
  }

  // ---------------------------------------------------------------------------------------------
  // What every operation keeps
  // ---------------------------------------------------------------------------------------------

  /** Rows are never dropped and never change identity: a track keeps its root and relative path, a root
      its path; artists, albums, playlists and their entries are as before. */
  predicate Extends(older: Db, newer: Db)
  {
    && (forall i | i in older.tracks :: i in newer.tracks && SameKey(newer.tracks[i], older.tracks[i].root, older.tracks[i].path))
    && (forall i | i in older.roots :: i in newer.roots && newer.roots[i].path == older.roots[i].path)
    && (forall i | i in older.artists :: i in newer.artists && newer.artists[i] == older.artists[i])
    && (forall i | i in older.albums :: i in newer.albums && newer.albums[i] == older.albums[i])
    && newer.playlists == older.playlists && newer.entries == older.entries
  }

  lemma ExtendsSelf(db: Db)
    ensures Extends(db, db)
  {
  }

  lemma ExtendsTransitive(a: Db, b: Db, c: Db)
    requires Extends(a, b) && Extends(b, c)
    ensures Extends(a, c)
  {
  }

  /** The artist of that name; none for a missing or empty name. */
  predicate NamesArtist(db: Db, id: Option<nat>, name: Option<string>)
  {
    if name.None? || name.value == "" then id == None
    else id.Some? && id.value in db.artists && db.artists[id.value] == name.value
  }

  /** The album of that title by the artist of that name; none for a missing or empty title. */
  predicate NamesAlbum(db: Db, id: Option<nat>, title: Option<string>, artistName: Option<string>)
  {
    if title.None? || title.value == "" then id == None
    else id.Some? && id.value in db.albums && db.albums[id.value].title == title.value &&
         NamesArtist(db, db.albums[id.value].artist, artistName)
  }

  lemma ResolveArtistNames(db: Db, name: Option<string>)
    ensures var (d, id) := ResolveArtist(db, name);
            d == db.(artists := d.artists) && Extends(db, d) && NamesArtist(d, id, name)
  {
  }

  lemma ResolveArtistSound(db: Db, name: Option<string>)
    requires Sound(db)
    ensures var (d, id) := ResolveArtist(db, name);
            && Sound(d) && Known(id, d.artists) && d == db.(artists := d.artists)
            && Extends(db, d) && NamesArtist(d, id, name)
  {
    ResolveArtistNames(db, name);
    hide UniqueAlbums, UniqueRoots, UniqueTracks, DistinctPositions, Extends;
  }

  lemma ResolveAlbumNames(db: Db, title: Option<string>, artist: Option<nat>)
    ensures var (d, id) := ResolveAlbum(db, title, artist);
            && d == db.(albums := d.albums) && Extends(db, d)
            && if title.None? || title.value == "" then id == None
               else id.Some? && id.value in d.albums && d.albums[id.value] == Album(title.value, artist)
  {
  }

  lemma ResolveAlbumSound(db: Db, title: Option<string>, artist: Option<nat>)
    requires Sound(db) && Known(artist, db.artists)
    ensures var (d, id) := ResolveAlbum(db, title, artist);
            && Sound(d) && Known(id, d.albums) && d == db.(albums := d.albums) && Extends(db, d)
            && if title.None? || title.value == "" then id == None
               else id.Some? && d.albums[id.value] == Album(title.value, artist)
  {
    ResolveAlbumNames(db, title, artist);
    hide UniqueNames, UniqueRoots, UniqueTracks, DistinctPositions, Extends;
  }

  lemma NameKept(db: Db, d: Db, id: Option<nat>, name: Option<string>)
    requires Extends(db, d) && NamesArtist(db, id, name)
    ensures NamesArtist(d, id, name)
  {
  }

  lemma ResolveNamesSound(db: Db, data: TrackUpsert)
    requires Sound(db)
    ensures var (d, artist, album) := ResolveNames(db, data);
            && Sound(d) && Known(artist, d.artists) && Known(album, d.albums)
            && d == db.(artists := d.artists, albums := d.albums) && Extends(db, d)
            && NamesArtist(d, artist, data.artistName)
            && NamesAlbum(d, album, data.albumTitle, if data.albumArtist.Some? then data.albumArtist else data.artistName)
  {
    hide Sound, ResolveArtist, ResolveAlbum, Extends, NamesArtist;
    ResolveArtistSound(db, data.artistName);
    var (db1, artist) := ResolveArtist(db, data.artistName);
    ResolveArtistSound(db1, data.albumArtist);
    var (db2, albumArtist) := if data.albumArtist.Some? then ResolveArtist(db1, data.albumArtist) else (db1, artist);
    ResolveAlbumSound(db2, data.albumTitle, albumArtist);
    var (db3, _) := ResolveAlbum(db2, data.albumTitle, albumArtist);
    ExtendsSelf(db1);
    ExtendsTransitive(db1, db2, db3);
    ExtendsTransitive(db, db1, db3);
    NameKept(db1, db3, artist, data.artistName);
    NameKept(db2, db3, albumArtist, if data.albumArtist.Some? then data.albumArtist else data.artistName);
  }

  lemma PutTrackSound(db: Db, row: Track)
    requires Sound(db) && TrackResolves(db, row)
    ensures Sound(PutTrack(db, row).0) && Extends(db, PutTrack(db, row).0)
  {
    var (d, id) := PutTrack(db, row);
    assert UniqueTracks(d.tracks);
  }

  /** An upsert keeps the tables sound, writes exactly the row of its key, and under the old id if there was one. */
  lemma UpsertSound(db: Db, data: TrackUpsert)
    requires Sound(db) && data.root in db.roots
    ensures var (d, id) := Upsert(db, data);
            && Sound(d) && Extends(db, d) && d.roots == db.roots
            && id in d.tracks && SameKey(d.tracks[id], data.root, data.path)
            && d.tracks[id].deletedAt == None && d.tracks[id].size == data.size && d.tracks[id].hash == data.hash
            && d.tracks[id].modifiedMs == ToEpochMillis(data.modifiedAt)
            && d.tracks == db.tracks[id := d.tracks[id]]
            && (id in db.tracks ==> SameKey(db.tracks[id], data.root, data.path))
  {
    hide Sound, ResolveNames;
    ResolveNamesSound(db, data);
    var (named, artist, album) := ResolveNames(db, data);
    PutTrackSound(named, RowOf(data, artist, album));
  }

  /** What an upsert writes: title and details as given; the artist of that name; and the album of that
      title by the album artist, if the data have one, else by the track's artist. Missing and empty names
      stand for none. Rows of artists and albums that were there stay as they are. */
  lemma UpsertDescribes(db: Db, data: TrackUpsert)
    requires Sound(db) && data.root in db.roots
    ensures var (d, id) := Upsert(db, data);
            && id in d.tracks && d.tracks[id].title == data.title && d.tracks[id].details == data.details
            && NamesArtist(d, d.tracks[id].artist, data.artistName)
            && NamesAlbum(d, d.tracks[id].album, data.albumTitle,
                          if data.albumArtist.Some? then data.albumArtist else data.artistName)
  {
    hide Sound, ResolveNames;
    ResolveNamesSound(db, data);
  }

  /** Rewriting track rows without touching their keys and references. */
  lemma TracksRewritten(db: Db, d: Db)
    requires Sound(db) && d == db.(tracks := d.tracks) && d.tracks.Keys == db.tracks.Keys
    requires forall i | i in db.tracks ::
               SameKey(d.tracks[i], db.tracks[i].root, db.tracks[i].path) &&
               d.tracks[i].artist == db.tracks[i].artist && d.tracks[i].album == db.tracks[i].album
    ensures Sound(d) && Extends(db, d)
  {
    hide UniqueNames, UniqueAlbums, UniqueRoots, AlbumsResolve, DistinctPositions;
    assert UniqueTracks(d.tracks);
    forall i | i in d.tracks ensures TrackResolves(d, d.tracks[i]) {
      assert TrackResolves(db, db.tracks[i]);
    }
  }

  /** Rewriting or adding root rows without touching existing paths. */
  lemma RootsRewritten(db: Db, d: Db)
    requires Sound(db) && d == db.(roots := d.roots) && UniqueRoots(d.roots)
    requires forall i | i in db.roots :: i in d.roots && d.roots[i].path == db.roots[i].path
    ensures Sound(d) && Extends(db, d)
  {
    hide UniqueNames, UniqueAlbums, UniqueTracks, UniqueRoots, AlbumsResolve, DistinctPositions;
    forall i | i in d.tracks ensures TrackResolves(d, d.tracks[i]) {
      assert TrackResolves(db, db.tracks[i]);
    }
  }

  lemma SoftDeleteSound(db: Db, id: nat, now: int)
    requires Sound(db)
    ensures Sound(SoftDelete(db, id, now).0) && Extends(db, SoftDelete(db, id, now).0)
    ensures var (d, deleted) := SoftDelete(db, id, now);
            && (deleted <==> id in db.tracks && db.tracks[id].deletedAt.None?)
            && (deleted ==> d.tracks[id].deletedAt == Some(ToEpochMillis(now)))
            && (forall i | i in db.tracks && (i != id || !deleted) :: d.tracks[i] == db.tracks[i])
  {
    hide Sound;
    TracksRewritten(db, SoftDelete(db, id, now).0);
  }

  /** Writing one root row: an existing one keeps its path, a new one brings a new path. */
  lemma RootPut(db: Db, id: nat, r: Root)
    requires Sound(db)
    requires id in db.roots ==> r.path == db.roots[id].path
    requires id !in db.roots ==> forall i | i in db.roots :: db.roots[i].path != r.path
    ensures var d := db.(roots := db.roots[id := r]); Sound(d) && Extends(db, d)
  {
    var roots := db.roots[id := r];
    assert UniqueRoots(db.roots);
    assert UniqueRoots(roots);
    hide Sound, UniqueRoots;
    RootsRewritten(db, db.(roots := roots));
  }

  lemma UpsertRootShape(db: Db, path: string, now: int)
    ensures var (d, id) := UpsertRoot(db, path, now);
            && d == db.(roots := d.roots) && id in d.roots && d.roots == db.roots[id := d.roots[id]]
            && d.roots[id] == (if id in db.roots then db.roots[id].(retiredAt := None)
                               else Root(path, ToEpochMillis(now), None, None))
            && (id in db.roots ==> db.roots[id].path == path)
            && (id !in db.roots ==> forall i | i in db.roots :: db.roots[i].path != path)
  {
    hide ToEpochMillis;
  }

  lemma UpsertRootSound(db: Db, path: string, now: int)
    requires Sound(db)
    ensures var (d, id) := UpsertRoot(db, path, now);
            && Sound(d) && Extends(db, d) && d == db.(roots := d.roots)
            && id in d.roots && d.roots[id].path == path
            && d.roots[id] == (if id in db.roots then db.roots[id].(retiredAt := None)
                               else Root(path, ToEpochMillis(now), None, None))
            && (forall r | r in db.roots && r != id :: r in d.roots && d.roots[r] == db.roots[r])
            && (forall r | r in d.roots :: r in db.roots || r == id)
  {
    hide Sound, Extends, UpsertRoot;
    UpsertRootShape(db, path, now);
    var (d, id) := UpsertRoot(db, path, now);
    RootPut(db, id, d.roots[id]);
  }

  lemma RootMarksSound(db: Db, id: nat, now: int)
    requires Sound(db)
    ensures Sound(MarkScanned(db, id, now)) && Extends(db, MarkScanned(db, id, now))
    ensures Sound(Retire(db, id, now)) && Extends(db, Retire(db, id, now))
  {
    hide Sound;
    if id in db.roots {
      RootPut(db, id, MarkScanned(db, id, now).roots[id]);
      RootPut(db, id, Retire(db, id, now).roots[id]);
    }
  }
}
