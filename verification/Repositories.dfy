/** The repositories, the scanner and the `scan` command as the code has them: objects whose methods
    change the tables in place, each proved equal to its function. */
module Repositories {
  import opened Common
  import opened Database
  import opened Scanner
  import opened RunScan
  import opened Playlists

  // ---------------------------------------------------------------------------------------------
  // Every sequence of operations
  // ---------------------------------------------------------------------------------------------

  datatype Operation =
    | UpsertTrackOp(data: TrackUpsert)
    | SoftDeleteOp(id: nat, now: int)
    | UpsertRootOp(path: string, now: int)
    | MarkScannedOp(id: nat, now: int)
    | RetireOp(id: nat, now: int)
    | PlaylistOp(op: Op)

  /** An upsert whose root does not exist violates a foreign key and is rolled back. */
  ghost function Perform(db: Db, o: Operation): Db
  {
    match o
    case UpsertTrackOp(data) => if data.root in db.roots then Upsert(db, data).0 else db
    case SoftDeleteOp(id, now) => SoftDelete(db, id, now).0
    case UpsertRootOp(path, now) => UpsertRoot(db, path, now).0
    case MarkScannedOp(id, now) => MarkScanned(db, id, now)
    case RetireOp(id, now) => Retire(db, id, now)
    case PlaylistOp(op) => Apply(db, op)
  }

  ghost function PerformAll(db: Db, ops: seq<Operation>): Db
    decreases |ops|
  {
    if ops == [] then db else PerformAll(Perform(db, ops[0]), ops[1..])
  }

  lemma PlaylistOpSound(db: Db, op: Op)
    requires Sound(db)
    ensures Sound(Apply(db, op))
  {
    StepRefines(db, op);
    PlaylistOpFrame(db, op);
    hide Apply, ListsOf, ApplyToLists, UniqueTracks, UniqueNames, UniqueAlbums, UniqueRoots;
  }

  lemma PlaylistOpFrame(db: Db, op: Op)
    ensures var d := Apply(db, op);
            d.roots == db.roots && d.artists == db.artists && d.albums == db.albums && d.tracks == db.tracks
  {
    hide NextPosition, Positions;
  }

  lemma PerformSound(db: Db, o: Operation)
    requires Sound(db)
    ensures Sound(Perform(db, o))
  {
    hide Sound, Upsert, SoftDelete, UpsertRoot, MarkScanned, Retire, Apply, Extends;
    match o
    case UpsertTrackOp(data) => if data.root in db.roots { UpsertSound(db, data); }
    case SoftDeleteOp(id, now) => SoftDeleteSound(db, id, now);
    case UpsertRootOp(path, now) => UpsertRootSound(db, path, now);
    case MarkScannedOp(id, now) => RootMarksSound(db, id, now);
    case RetireOp(id, now) => RootMarksSound(db, id, now);
    case PlaylistOp(op) => PlaylistOpSound(db, op);
  }

  /** Starting empty, whatever the operations: artist names, (album title, album artist), root paths and
      (root, relative path) stay unique, every reference resolves, positions in a playlist are distinct. */
  lemma {:induction false} TablesStaySound(ops: seq<Operation>, db: Db)
    requires Sound(db)
    ensures Sound(EMPTY_DB)
    ensures Sound(PerformAll(db, ops))
    decreases |ops|
  {
    if ops != [] {
      hide Sound, Perform;
      PerformSound(db, ops[0]);
      TablesStaySound(ops[1..], Perform(db, ops[0]));
    }
    assert Sound(EMPTY_DB) by { EmptySound(); }
  }

  /** The playlists as sequences, after operations on any table: a playlist operation is the operation on
      sequences, over the tracks there are at that point; every other operation leaves the lists alone. */
  ghost function ListsAfter(db: Db, lists: Lists, ops: seq<Operation>): Lists
    decreases |ops|
  {
    if ops == [] then lists
    else
      ListsAfter(Perform(db, ops[0]),
                 if ops[0].PlaylistOp? then ApplyToLists(lists, db.tracks.Keys, ops[0].op) else lists, ops[1..])
  }

  lemma ListsKept(db: Db, o: Operation)
    requires Sound(db) && !o.PlaylistOp?
    ensures ListsOf(Perform(db, o)) == ListsOf(db) && db.tracks.Keys <= Perform(db, o).tracks.Keys
  {
    hide Sound, Upsert, UpsertRoot, Listing, Positions;
    match o
    case UpsertTrackOp(data) => if data.root in db.roots { UpsertSound(db, data); }
    case UpsertRootOp(path, now) => UpsertRootSound(db, path, now);
    case _ =>
  }

  /** Over any sequence of operations on the whole database, upserts that add tracks included, the tables
      behave as one sequence per playlist, and no track ever leaves the table. */
  lemma {:induction false} OperationsRefineSequences(db: Db, ops: seq<Operation>)
    requires Sound(db)
    ensures ListsOf(PerformAll(db, ops)) == ListsAfter(db, ListsOf(db), ops)
    ensures db.tracks.Keys <= PerformAll(db, ops).tracks.Keys
    decreases |ops|
  {
    if ops != [] {
      hide Perform, ListsOf, ApplyToLists;
      PerformSound(db, ops[0]);
      if ops[0].PlaylistOp? {
        PlaylistStep(db, ops[0].op);
      } else {
        ListsKept(db, ops[0]);
      }
      hide Sound;
      OperationsRefineSequences(Perform(db, ops[0]), ops[1..]);
    }
  }

  lemma PlaylistStep(db: Db, op: Op)
    requires Sound(db)
    ensures var d := Perform(db, PlaylistOp(op));
            ListsOf(d) == ApplyToLists(ListsOf(db), db.tracks.Keys, op) && d.tracks == db.tracks
  {
    hide Apply, ListsOf, ApplyToLists;
    StepRefines(db, op);
  }

  lemma EmptySound()
    ensures Sound(EMPTY_DB)
  {
  }

  // ---------------------------------------------------------------------------------------------
  // The tables as an object
  // ---------------------------------------------------------------------------------------------

  class LibraryDatabase {
    var roots: map<nat, Root>
    var artists: map<nat, string>
    var albums: map<nat, Album>
    var tracks: map<nat, Track>
    var playlists: map<nat, Playlist>
    var entries: map<(nat, nat), int>

    ghost function View(): Db
      reads this
    {
      Db(roots, artists, albums, tracks, playlists, entries)
    }

    constructor ()
      ensures View() == EMPTY_DB && Sound(View())
    {
      roots, artists, albums, tracks, playlists, entries := map[], map[], map[], map[], map[], map[];
      new;
      EmptySound();
    }

    method FindOrCreateArtist(name: Option<string>) returns (id: Option<nat>)
      requires UniqueNames(artists)
      modifies `artists
      ensures (View(), id) == ResolveArtist(old(View()), name)
    {
      if name.None? || name.value == "" { return None; }
      if i :| i in artists && artists[i] == name.value {
        assert FindArtist(artists, name.value) == Some(i);
        return Some(i);
      }
      var next := NextId(artists.Keys);
      artists := artists[next := name.value];
      return Some(next);
    }

    method FindOrCreateAlbum(title: Option<string>, artist: Option<nat>) returns (id: Option<nat>)
      requires UniqueAlbums(albums)
      modifies `albums
      ensures (View(), id) == ResolveAlbum(old(View()), title, artist)
    {
      if title.None? || title.value == "" { return None; }
      var album := Album(title.value, artist);
      if i :| i in albums && albums[i] == album {
        assert FindAlbum(albums, album) == Some(i);
        return Some(i);
      }
      var next := NextId(albums.Keys);
      albums := albums[next := album];
      return Some(next);
    }

    method FindByPath(root: nat, path: string) returns (id: Option<nat>)
      requires UniqueTracks(tracks)
      ensures id == FindTrack(tracks, root, path)
    {
      if i :| i in tracks && SameKey(tracks[i], root, path) {
        assert FindTrack(tracks, root, path) == Some(i);
        return Some(i);
      }
      return None;
    }

    method UpsertTrack(data: TrackUpsert) returns (id: nat)
      requires Sound(View()) && data.root in roots
      modifies this
      ensures (View(), id) == Upsert(old(View()), data) && Sound(View())
    {
      hide Sound, ResolveArtist, ResolveAlbum;
      UpsertSound(View(), data);
      SoundNames(View());
      ghost var start := View();
      ResolveArtistSound(View(), data.artistName);
      var artist := FindOrCreateArtist(data.artistName);
      SoundNames(View());
      var albumArtist := artist;
      if data.albumArtist.Some? {
        ResolveArtistSound(View(), data.albumArtist);
        albumArtist := FindOrCreateArtist(data.albumArtist);
        SoundNames(View());
      }
      ResolveAlbumSound(View(), data.albumTitle, albumArtist);
      var album := FindOrCreateAlbum(data.albumTitle, albumArtist);
      SoundNames(View());
      var found := FindByPath(data.root, data.path);
      id := if found.Some? then found.value else NextId(tracks.Keys);
      tracks := tracks[id := RowOf(data, artist, album)];
    }

    lemma SoundNames(db: Db)
      requires Sound(db)
      ensures UniqueNames(db.artists) && UniqueAlbums(db.albums) && UniqueTracks(db.tracks) && UniqueRoots(db.roots)
    {
    }

    method SoftDeleteTrack(id: nat, now: int) returns (deleted: bool)
      modifies `tracks
      ensures (View(), deleted) == SoftDelete(old(View()), id, now)
    {
      deleted := id in tracks && tracks[id].deletedAt.None?;
      if deleted {
        tracks := tracks[id := tracks[id].(deletedAt := Some(ToEpochMillis(now)))];
      }
    }

    method FindOrCreateRoot(path: string, now: int) returns (id: nat)
      requires UniqueRoots(roots)
      modifies `roots
      ensures (View(), id) == UpsertRoot(old(View()), path, now)
    {
      if i :| i in roots && roots[i].path == path {
        assert FindRoot(roots, path) == Some(i);
        if roots[i].retiredAt.Some? {
          roots := roots[i := roots[i].(retiredAt := None)];
        } else {
          assert roots[i := roots[i].(retiredAt := None)] == roots;
        }
        return i;
      }
      id := NextId(roots.Keys);
      roots := roots[id := Root(path, ToEpochMillis(now), None, None)];
    }

    method MarkRootScanned(id: nat, now: int)
      modifies `roots
      ensures View() == MarkScanned(old(View()), id, now)
    {
      if id in roots {
        roots := roots[id := roots[id].(lastScanAt := Some(ToEpochMillis(now)))];
      }
    }

    method RetireRoot(id: nat, now: int)
      modifies `roots
      ensures View() == Retire(old(View()), id, now)
    {
      if id in roots {
        roots := roots[id := roots[id].(retiredAt := Some(ToEpochMillis(now)))];
      }
    }

    method InsertPlaylist(name: string, now: int) returns (id: nat)
      modifies `playlists
      ensures (View(), id) == CreatePlaylist(old(View()), name, now)
    {
      id := NextId(playlists.Keys);
      playlists := playlists[id := Playlist(name, ToEpochMillis(now), ToEpochMillis(now))];
    }

    method AddPlaylistTrack(playlist: nat, track: nat, now: int) returns (ok: bool)
      modifies `entries, `playlists
      ensures (View(), ok) == AddTrack(old(View()), playlist, track, now)
    {
      hide Positions;
      if playlist !in playlists || track !in tracks { return false; }
      if (playlist, track) in entries { return true; }
      var position := ComputeNextPosition(Positions(entries, playlist));
      entries := entries[(playlist, track) := position];
      playlists := playlists[playlist := playlists[playlist].(updatedAt := ToEpochMillis(now))];
      return true;
    }

    method ComputeNextPosition(m: map<nat, int>) returns (p: int)
      ensures p == NextPosition(m)
    {
      p := 0;
      var left := m.Keys;
      ghost var any := false;
      while left != {}
        invariant left <= m.Keys
        invariant forall t | t in m && t !in left :: m[t] < p
        invariant left == m.Keys || exists t :: t in m && t !in left && p == m[t] + 1
        invariant left == m.Keys ==> p == 0
        decreases left
      {
        var t :| t in left;
        if left == m.Keys || m[t] + 1 > p {
          p := m[t] + 1;
        }
        left := left - {t};
      }
      assert IsNextPosition(m, p);
    }

    method RemovePlaylistTrack(playlist: nat, track: nat, now: int) returns (removed: bool)
      modifies `entries, `playlists
      ensures (View(), removed) == RemoveTrack(old(View()), playlist, track, now)
    {
      removed := (playlist, track) in entries;
      if removed {
        entries := entries - {(playlist, track)};
        if playlist in playlists {
          playlists := playlists[playlist := playlists[playlist].(updatedAt := ToEpochMillis(now))];
        }
      }
    }

    method DeletePlaylist(playlist: nat) returns (removed: bool)
      modifies `entries, `playlists
      ensures (View(), removed) == RemovePlaylist(old(View()), playlist)
    {
      removed := playlist in playlists;
      if removed {
        playlists := playlists - {playlist};
        entries := map e | e in entries && e.0 != playlist :: entries[e];
      }
    }
  }

  // ---------------------------------------------------------------------------------------------
  // The scanner and the command
  // ---------------------------------------------------------------------------------------------

  class LibraryScanner {
    const db: LibraryDatabase

    constructor (db: LibraryDatabase)
      ensures this.db == db
    {
      this.db := db;
    }

    method InsertNew(root: nat, f: FileEntry) returns (o: Outcome)
      requires Sound(db.View()) && root in db.roots && f.stat.Some?
      modifies db
      ensures Sound(db.View()) && db.roots == old(db.roots)
      ensures if ContentReads(f) then o == Inserted && db.View() == Upsert(old(db.View()), UpsertFor(root, f)).0
              else o == Skipped && db.View() == old(db.View())
    {
      hide Sound, Upsert;
      if f.meta.None? { return Skipped; }
      if f.hash.None? { return Skipped; }
      UpsertSound(db.View(), UpsertFor(root, f));
      var _ := db.UpsertTrack(UpsertFor(root, f));
      return Inserted;
    }

    method ProcessOne(root: nat, f: FileEntry) returns (o: Outcome)
      requires Sound(db.View()) && root in db.roots
      modifies db
      ensures (db.View(), o) == ProcessFile(old(db.View()), root, f)
      ensures Sound(db.View()) && db.roots == old(db.roots)
    {
      hide Sound, Upsert;
      if f.stat.None? { return Skipped; }
      SoundUnique(db.View());
      var existing := db.FindByPath(root, f.path);
      if existing.None? {
        o := InsertNew(root, f);
        return;
      }
      var row := db.tracks[existing.value];
      if row.deletedAt.Some? {
        o := InsertNew(root, f);
        return;
      }
      var possiblyChanged := f.stat.value.0 != row.size ||
                             ToEpochMillis(f.stat.value.1) != ToEpochMillis(FromEpochMillis(row.modifiedMs));
      if !possiblyChanged { return Unchanged; }
      if f.hash.None? { return Skipped; }
      if f.meta.None? { return Skipped; }
      UpsertSound(db.View(), UpsertFor(root, f));
      var _ := db.UpsertTrack(UpsertFor(root, f));
      return if f.hash.value == row.hash then Unchanged else Updated;
    }

    method DetectDeletions(root: nat, seen: set<string>, now: int) returns (deleted: nat)
      modifies db`tracks
      ensures db.View() == DeleteAll(old(db.View()), Unseen(old(db.View()), root, seen), now)
      ensures deleted == |Unseen(old(db.View()), root, seen)|
    {
      hide DeleteAll, SoftDelete;
      ghost var start := db.View();
      ghost var target := Unseen(start, root, seen);
      var rows := set i | i in db.tracks && db.tracks[i].root == root;
      deleted := 0;
      ghost var done: set<nat> := {};
      var left := rows;
      DeleteNone(start, now);
      while left != {}
        invariant left <= rows <= start.tracks.Keys && done !! left && deleted == |done|
        invariant done <= target <= done + left
        invariant db.View() == DeleteAll(start, done, now)
        decreases left
      {
        var i :| i in left;
        left := left - {i};
        DeleteOneMore(start, done, i, now);
        var track := db.tracks[i];
        if track.deletedAt.Some? || track.path in seen { continue; }
        var gone := db.SoftDeleteTrack(i, now);
        if gone {
          deleted := deleted + 1;
        }
        done := done + {i};
      }
      assert done == target;
    }

    method ScanRoot(root: nat, walk: seq<FileEntry>, now: int) returns (r: ScanResult)
      requires Sound(db.View()) && root in db.roots
      modifies db
      ensures (db.View(), r) == Scan(old(db.View()), root, walk, now)
    {
      hide Sound, ProcessFile, Unseen, DeleteAll;
      var inserted, updated, kept, skipped := 0, 0, 0, 0;
      var seen: set<string> := {};
      ghost var start := db.View();
      ghost var outcomes: seq<Outcome> := [];
      ghost var files := Indexed(walk);
      assert walk[0..] == walk;
      ghost var all := ProcessAll(start, root, files);
      assert outcomes + all.1 == all.1 && seen + PathsOf(files) == PathsOf(files);
      for i := 0 to |walk|
        invariant Sound(db.View()) && root in db.roots
        invariant ProcessAll(start, root, files) ==
                  var (e, os) := ProcessAll(db.View(), root, Indexed(walk[i..])); (e, outcomes + os)
        invariant PathsOf(files) == seen + PathsOf(Indexed(walk[i..]))
        invariant inserted == Count(outcomes, Inserted) && updated == Count(outcomes, Updated)
        invariant kept == Count(outcomes, Unchanged) && skipped == Count(outcomes, Skipped)
      {
        var f := walk[i];
        assert walk[i..][1..] == walk[i + 1..];
        if !f.regular { continue; }
        if f.extension !in SUPPORTED { continue; }
        ghost var rest := Indexed(walk[i + 1..]);
        assert Indexed(walk[i..]) == [f] + rest;
        assert PathsOf([f] + rest) == {f.path} + PathsOf(rest) by { PathsCons(f, rest); }
        seen := seen + {f.path};
        ghost var before := db.View();
        var o := ProcessOne(root, f);
        ProcessCons(before, root, f, rest);
        ghost var later := ProcessAll(db.View(), root, rest);
        assert outcomes + ([o] + later.1) == (outcomes + [o]) + later.1;
        CountSnoc(outcomes, o);
        outcomes := outcomes + [o];
        match o {
          case Inserted => inserted := inserted + 1;
          case Updated => updated := updated + 1;
          case Unchanged => kept := kept + 1;
          case Skipped => skipped := skipped + 1;
        }
      }
      assert Indexed(walk[|walk|..]) == [];
      assert outcomes + [] == outcomes;
      assert PathsOf([]) == {};
      var deleted := DetectDeletions(root, seen, now);
      r := ScanResult(inserted, updated, kept, deleted, skipped);
    }
  }

  lemma DeleteNone(db: Db, now: int)
    ensures DeleteAll(db, {}, now) == db
  {
  }

  /** Deleting one more live track is one soft delete. */
  lemma DeleteOneMore(db: Db, done: set<nat>, i: nat, now: int)
    requires i in db.tracks && i !in done
    ensures var d := DeleteAll(db, done, now);
            && i in d.tracks && d.tracks[i] == db.tracks[i]
            && (db.tracks[i].deletedAt.None? ==> SoftDelete(d, i, now) == (DeleteAll(db, done + {i}, now), true))
  {
    assert SoftDelete(DeleteAll(db, done, now), i, now).0.tracks == DeleteAll(db, done + {i}, now).tracks ||
           db.tracks[i].deletedAt.Some?;
  }

  lemma PathsCons(f: FileEntry, rest: seq<FileEntry>)
    ensures PathsOf([f] + rest) == {f.path} + PathsOf(rest)
  {
  }

  lemma ProcessCons(db: Db, root: nat, f: FileEntry, rest: seq<FileEntry>)
    ensures var (d, o) := ProcessFile(db, root, f);
            var (e, os) := ProcessAll(d, root, rest);
            ProcessAll(db, root, [f] + rest) == (e, [o] + os)
  {
    hide ProcessFile;
    assert ([f] + rest)[1..] == rest;
  }

  lemma {:induction false} CountSnoc(os: seq<Outcome>, last: Outcome)
    ensures forall o :: Count(os + [last], o) == Count(os, o) + if o == last then 1 else 0
    decreases |os|
  {
    if os == [] {
      assert forall o :: Count([last][1..], o) == 0;
    } else {
      CountSnoc(os[1..], last);
      assert (os + [last])[1..] == os[1..] + [last];
    }
  }

  // ---------------------------------------------------------------------------------------------
  // The command
  // ---------------------------------------------------------------------------------------------

  /** A set of roots retired, with their live tracks soft-deleted. */
  function RetireSome(db: Db, ids: set<nat>, now: int): Db
  {
    DeleteAll(db, (set i | i in db.tracks && db.tracks[i].deletedAt.None? && db.tracks[i].root in ids), now).(
      roots := map r | r in db.roots ::
        if r in ids then db.roots[r].(retiredAt := Some(ToEpochMillis(now))) else db.roots[r])
  }

  function DroppedRoots(db: Db, paths: seq<string>): set<nat>
  {
    set r | r in db.roots && Dropped(db.roots[r], paths)
  }

  lemma RetireSomeIsAll(db: Db, paths: seq<string>, now: int)
    ensures RetireSome(db, DroppedRoots(db, paths), now) == RetireUnconfigured(db, paths, now)
  {
    assert (set i | i in db.tracks && db.tracks[i].deletedAt.None? && db.tracks[i].root in DroppedRoots(db, paths)) ==
           DroppedTracks(db, paths);
  }

  lemma RetireNone(db: Db, now: int)
    ensures RetireSome(db, {}, now) == db
  {
  }

  lemma RetireOneMore(db: Db, ids: set<nat>, r: nat, now: int)
    requires r in db.roots && r !in ids
    ensures var d := RetireSome(db, ids, now);
            && r in d.roots && d.roots[r] == db.roots[r]
            && Retire(DeleteAll(d, Unseen(d, r, {}), now), r, now) == RetireSome(db, ids + {r}, now)
  {
    var d := RetireSome(db, ids, now);
    RetireOneMoreTracks(db, ids, r, now);
    hide DeleteAll, Unseen;
    DeleteAllRoots(d, Unseen(d, r, {}), now);
    var e := Retire(DeleteAll(d, Unseen(d, r, {}), now), r, now);
    var whole := RetireSome(db, ids + {r}, now);
    RetireSomeFrame(db, ids, now);
    RetireSomeFrame(db, ids + {r}, now);
    hide RetireSome;
    assert e.roots == whole.roots;
  }

  lemma DeleteAllRoots(db: Db, ids: set<nat>, now: int)
    ensures DeleteAll(db, ids, now) == db.(tracks := DeleteAll(db, ids, now).tracks)
  {
  }

  lemma RetireSomeFrame(db: Db, ids: set<nat>, now: int)
    ensures var d := RetireSome(db, ids, now);
            && d == db.(roots := d.roots, tracks := d.tracks) && d.roots.Keys == db.roots.Keys
            && forall r | r in db.roots ::
                 d.roots[r] == if r in ids then db.roots[r].(retiredAt := Some(ToEpochMillis(now))) else db.roots[r]
  {
  }

  lemma RetireOneMoreTracks(db: Db, ids: set<nat>, r: nat, now: int)
    ensures var d := RetireSome(db, ids, now);
            DeleteAll(d, Unseen(d, r, {}), now).tracks == RetireSome(db, ids + {r}, now).tracks
  {
    hide Unseen, RetireSome, DeleteAll;
    var d := RetireSome(db, ids, now);
    var e := DeleteAll(d, Unseen(d, r, {}), now);
    RetireSomeTracks(db, ids, now);
    RetireSomeTracks(db, ids + {r}, now);
    forall i ensures i in e.tracks <==> i in db.tracks
             ensures i in db.tracks ==> e.tracks[i] == RetireSome(db, ids + {r}, now).tracks[i] {
      DeleteUnseenTrack(d, r, now, i);
    }
  }

  /** A track as retiring the roots `ids` leaves it. */
  function Retired(t: Track, ids: set<nat>, now: int): Track
  {
    if t.root in ids && t.deletedAt.None? then t.(deletedAt := Some(ToEpochMillis(now))) else t
  }

  lemma RetireSomeTracks(db: Db, ids: set<nat>, now: int)
    ensures var d := RetireSome(db, ids, now);
            d.tracks.Keys == db.tracks.Keys && forall i | i in db.tracks :: d.tracks[i] == Retired(db.tracks[i], ids, now)
  {
  }

  lemma DeleteUnseenTrack(d: Db, r: nat, now: int, i: nat)
    ensures var e := DeleteAll(d, Unseen(d, r, {}), now);
            (i in e.tracks <==> i in d.tracks) && (i in d.tracks ==> e.tracks[i] == Retired(d.tracks[i], {r}, now))
  {
  }

  method RetireUnconfiguredRoots(db: LibraryDatabase, scanner: LibraryScanner, paths: seq<string>, now: int)
    requires scanner.db == db
    modifies db
    ensures db.View() == RetireUnconfigured(old(db.View()), paths, now)
  {
    hide RetireSome, DeleteAll, RetireUnconfigured, Retire;
    ghost var start := db.View();
    var active := set r | r in db.roots && db.roots[r].retiredAt.None?;
    ghost var done: set<nat> := {};
    var left := active;
    RetireNone(start, now);
    while left != {}
      invariant left <= active && active <= start.roots.Keys
      invariant done == DroppedRoots(start, paths) - left
      invariant db.View() == RetireSome(start, done, now)
      decreases left
    {
      var r :| r in left;
      left := left - {r};
      RetireOneMore(start, done, r, now);
      if db.roots[r].path in paths {
        assert r !in DroppedRoots(start, paths);
        continue;
      }
      var _ := scanner.DetectDeletions(r, {}, now);
      db.RetireRoot(r, now);
      done := done + {r};
    }
    assert done == DroppedRoots(start, paths);
    RetireSomeIsAll(start, paths, now);
  }

  method RunScanCommand(db: LibraryDatabase, scanner: LibraryScanner, paths: seq<string>, fs: Filesystem, now: int)
    requires scanner.db == db && Consistent(db.View()) && ValidFs(fs)
    modifies db
    ensures db.View() == Run(old(db.View()), paths, fs, now)
    ensures Consistent(db.View())
  {
    hide ScanPath, RetireUnconfigured, Consistent, Scan, UpsertRoot, MarkScanned;
    RunOk(db.View(), paths, fs, now);
    if paths == [] { return; }
    ghost var start := db.View();
    assert paths[0..] == paths;
    for i := 0 to |paths|
      invariant Consistent(db.View())
      invariant ScanPaths(start, paths, fs, now) == ScanPaths(db.View(), paths[i..], fs, now)
    {
      assert paths[i..][1..] == paths[i + 1..];
      ghost var before := db.View();
      ScanPathOk(before, paths[i], fs, now);
      ScanPathUnfold(before, paths[i], fs, now);
      if paths[i] in fs {
        ConsistentUnique(before);
        UpsertRootConsistent(before, paths[i], now);
        var root := db.FindOrCreateRoot(paths[i], now);
        ConsistentUnique(db.View());
        var _ := scanner.ScanRoot(root, fs[paths[i]], now);
        db.MarkRootScanned(root, now);
      }
    }
    assert ScanPaths(db.View(), paths[|paths|..], fs, now) == db.View();
    RetireUnconfiguredRoots(db, scanner, paths, now);
  }

  lemma ScanPathUnfold(db: Db, path: string, fs: Filesystem, now: int)
    ensures path !in fs ==> ScanPath(db, path, fs, now) == db
    ensures path in fs ==>
              var (d, id) := UpsertRoot(db, path, now);
              ScanPath(db, path, fs, now) == MarkScanned(Scan(d, id, fs[path], now).0, id, now)
  {
    hide UpsertRoot, Scan, MarkScanned;
  }

  lemma ConsistentUnique(db: Db)
    requires Consistent(db)
    ensures Sound(db) && UniqueRoots(db.roots)
  {
  }
}
