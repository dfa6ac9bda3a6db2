/** Whole runs of the `scan` command: configured roots are scanned, roots that are no longer
    configured are retired, and through it all a track keeps its identity. */
module RunScan {
  import opened Common
  import opened Database
  import opened Scanner

  /** The directories that exist, each with the entries a walk of it meets. */
  type Filesystem = map<string, seq<FileEntry>>

  predicate ValidFs(fs: Filesystem)
  {
    forall p | p in fs :: DistinctPaths(Indexed(fs[p]))
  }

  /** One configured path: skipped if it does not exist, otherwise found, created or revived, and scanned. */
  ghost function ScanPath(db: Db, path: string, fs: Filesystem, now: int): Db
  {
    if path !in fs then db
    else
      var (d, id) := UpsertRoot(db, path, now);
      MarkScanned(Scan(d, id, fs[path], now).0, id, now)
  }

  ghost function ScanPaths(db: Db, paths: seq<string>, fs: Filesystem, now: int): Db
    decreases |paths|
  {
    if paths == [] then db else ScanPaths(ScanPath(db, paths[0], fs, now), paths[1..], fs, now)
  }

  /** A root that is active but no longer configured. */
  predicate Dropped(r: Root, paths: seq<string>)
  {
    r.retiredAt.None? && r.path !in paths
  }

  function DroppedTracks(db: Db, paths: seq<string>): set<nat>
  {
    set i | i in db.tracks && db.tracks[i].deletedAt.None? &&
            db.tracks[i].root in db.roots && Dropped(db.roots[db.tracks[i].root], paths)
  }

  /** `retireUnconfiguredRoots`: soft-delete the tracks of dropped roots, then retire the roots. */
  function RetireUnconfigured(db: Db, paths: seq<string>, now: int): Db
  {
    DeleteAll(db, DroppedTracks(db, paths), now).(
      roots := map r | r in db.roots ::
        if Dropped(db.roots[r], paths) then db.roots[r].(retiredAt := Some(ToEpochMillis(now))) else db.roots[r])
  }

  /** `runScan`: without configured paths it does nothing. */
  ghost function Run(db: Db, paths: seq<string>, fs: Filesystem, now: int): Db
  {
    if paths == [] then db else RetireUnconfigured(ScanPaths(db, paths, fs, now), paths, now)
  }

  // ---------------------------------------------------------------------------------------------
  // Invariants of every run
  // ---------------------------------------------------------------------------------------------

  /** A retired root has no live track. */
  predicate RetiredIsEmpty(db: Db)
  {
    forall i | i in db.tracks && db.tracks[i].deletedAt.None? ::
      db.tracks[i].root in db.roots && db.roots[db.tracks[i].root].retiredAt.None?
  }

  ghost predicate Consistent(db: Db)
  {
    Sound(db) && RetiredIsEmpty(db)
  }

  predicate AtPath(db: Db, t: Track, path: string)
  {
    t.root in db.roots && db.roots[t.root].path == path
  }

  /** The live tracks of a root path mirror a set of relative paths. */
  ghost predicate Mirrors(db: Db, path: string, files: set<string>)
  {
    && (forall i | i in db.tracks && AtPath(db, db.tracks[i], path) :: db.tracks[i].deletedAt.None? <==> db.tracks[i].path in files)
    && (forall f | f in files :: exists i :: i in db.tracks && AtPath(db, db.tracks[i], path) && db.tracks[i].path == f)
  }

  lemma UpsertRootConsistent(db: Db, path: string, now: int)
    requires Consistent(db)
    ensures var (d, id) := UpsertRoot(db, path, now);
            && Consistent(d) && Extends(db, d) && id in d.roots && d.roots[id].path == path && d.roots[id].retiredAt.None?
            && d == db.(roots := d.roots)
            && (forall r | r in db.roots && r != id :: r in d.roots && d.roots[r] == db.roots[r])
  {
    hide Sound, UpsertRoot, Extends;
    UpsertRootSound(db, path, now);
  }

  /** Scanning an active root keeps the invariants, touches no other root, and with readable files
      makes the root mirror them. */
  lemma ScanConsistent(db: Db, id: nat, walk: seq<FileEntry>, now: int)
    requires Consistent(db) && id in db.roots && db.roots[id].retiredAt.None? && DistinctPaths(Indexed(walk))
    ensures var d := Scan(db, id, walk, now).0;
            && Consistent(d) && Extends(db, d) && d.roots == db.roots
            && (forall i | i in d.tracks && d.tracks[i].root != id :: i in db.tracks && d.tracks[i] == db.tracks[i])
            && (AllReadable(walk) ==> Mirrors(d, db.roots[id].path, PathsOf(Indexed(walk))))
  {
    hide Sound, Scan, Extends, Judged, Mirrors;
    ScanReconciles(db, id, walk, now);
    var d := Scan(db, id, walk, now).0;
    if AllReadable(walk) {
      ScanMirrors(db, id, walk, now);
    }
  }

  /** Every supported file of the walk can be read. */
  predicate AllReadable(walk: seq<FileEntry>)
  {
    forall f | f in Indexed(walk) :: f.stat.Some? && ContentReads(f)
  }

  lemma ReadableIsSettled(db: Db, d: Db, id: nat, f: FileEntry)
    requires Judged(db, d, id, f, Judge(RowAt(db, id, f.path), f)) && f.stat.Some? && ContentReads(f)
    ensures IsLive(RowAt(d, id, f.path))
  {
  }

  lemma ScanMirrors(db: Db, id: nat, walk: seq<FileEntry>, now: int)
    requires Sound(db) && id in db.roots && DistinctPaths(Indexed(walk)) && AllReadable(walk)
    ensures Mirrors(Scan(db, id, walk, now).0, db.roots[id].path, PathsOf(Indexed(walk)))
  {
    hide Sound, Scan, Extends, Judged, Judge, Indexed, ContentReads;
    var files := Indexed(walk);
    var d := Scan(db, id, walk, now).0;
    ScanReconciles(db, id, walk, now);
    SoundUnique(d);
    forall f | f in files ensures IsLive(RowAt(d, id, f.path)) {
      ReadableIsSettled(db, d, id, f);
    }
    forall i | i in d.tracks && AtPath(d, d.tracks[i], db.roots[id].path)
      ensures d.tracks[i].deletedAt.None? <==> d.tracks[i].path in PathsOf(files)
    {
      assert d.tracks[i].root == id;
      if d.tracks[i].path in PathsOf(files) {
        var f :| f in files && f.path == d.tracks[i].path;
        RowAtUnique(d, id, f.path, i);
      }
    }
    forall p | p in PathsOf(files)
      ensures exists i :: i in d.tracks && AtPath(d, d.tracks[i], db.roots[id].path) && d.tracks[i].path == p
    {
      var f :| f in files && f.path == p;
      var found := FindTrack(d.tracks, id, p);
      assert IsLive(RowAt(d, id, f.path));
      assert AtPath(d, d.tracks[found.value], db.roots[id].path);
    }
  }

  lemma MarkScannedConsistent(db: Db, id: nat, now: int)
    requires Consistent(db)
    ensures var d := MarkScanned(db, id, now);
            && Consistent(d) && Extends(db, d) && d.tracks == db.tracks
            && forall path, files | Mirrors(db, path, files) :: Mirrors(d, path, files)
  {
    hide Sound, Mirrors, Extends;
    RootMarksSound(db, id, now);
    var d := MarkScanned(db, id, now);
    assert forall t: Track, path :: AtPath(d, t, path) == AtPath(db, t, path);
    forall path, files | Mirrors(db, path, files) ensures Mirrors(d, path, files) {
      SameMirrors(db, d, path, files);
    }
  }

  /** Databases whose tracks of a path agree mirror the same files. */
  lemma SameMirrors(db: Db, d: Db, path: string, files: set<string>)
    requires Mirrors(db, path, files)
    requires forall i | i in d.tracks && AtPath(d, d.tracks[i], path) ::
               i in db.tracks && AtPath(db, db.tracks[i], path) &&
               db.tracks[i].deletedAt.None? == d.tracks[i].deletedAt.None? && db.tracks[i].path == d.tracks[i].path
    requires forall i | i in db.tracks && AtPath(db, db.tracks[i], path) ::
               i in d.tracks && AtPath(d, d.tracks[i], path) && d.tracks[i].path == db.tracks[i].path
    ensures Mirrors(d, path, files)
  {
    forall f | f in files ensures exists i :: i in d.tracks && AtPath(d, d.tracks[i], path) && d.tracks[i].path == f {
      var i :| i in db.tracks && AtPath(db, db.tracks[i], path) && db.tracks[i].path == f;
      assert i in d.tracks && AtPath(d, d.tracks[i], path);
    }
  }

  /** The files a configured path should mirror. */
  function FilesAt(fs: Filesystem, path: string): set<string>
    requires path in fs
  {
    PathsOf(Indexed(fs[path]))
  }

  /** Tracks of other paths are not touched by scanning one. */
  lemma OtherPathKept(db: Db, d: Db, e: Db, id: nat, path: string, other: string, files: set<string>)
    requires other != path && Mirrors(db, other, files)
    requires d == db.(roots := d.roots) && id in d.roots && d.roots[id].path == path
    requires forall r | r in db.roots && r != id :: r in d.roots && d.roots[r] == db.roots[r]
    requires id in db.roots ==> db.roots[id].path == path
    requires TracksResolve(db)
    requires Extends(d, e) && e.roots == d.roots
    requires forall i | i in e.tracks && e.tracks[i].root != id :: i in d.tracks && e.tracks[i] == d.tracks[i]
    ensures Mirrors(e, other, files)
  {
    forall i | i in db.tracks ensures AtPath(d, db.tracks[i], other) == AtPath(db, db.tracks[i], other) {
      assert TrackResolves(db, db.tracks[i]);
    }
    forall i | i in e.tracks && AtPath(e, e.tracks[i], other)
      ensures i in db.tracks && AtPath(db, db.tracks[i], other) && db.tracks[i] == e.tracks[i]
    {
      assert e.tracks[i].root != id;
    }
    forall i | i in db.tracks && AtPath(db, db.tracks[i], other)
      ensures i in e.tracks && AtPath(e, e.tracks[i], other) && e.tracks[i].path == db.tracks[i].path
    {
      assert AtPath(d, db.tracks[i], other);
    }
    hide Mirrors;
    SameMirrors(db, e, other, files);
  }

  lemma ScanPathOk(db: Db, path: string, fs: Filesystem, now: int)
    requires Consistent(db) && ValidFs(fs)
    ensures var e := ScanPath(db, path, fs, now);
            && Consistent(e) && Extends(db, e)
            && (path in fs && AllReadable(fs[path]) ==> Mirrors(e, path, FilesAt(fs, path)))
            && (forall other, files | other != path && Mirrors(db, other, files) :: Mirrors(e, other, files))
  {
    hide Sound, UpsertRoot, Scan, MarkScanned, Extends, Mirrors, RetiredIsEmpty, AllReadable;
    if path in fs {
      UpsertRootConsistent(db, path, now);
      var (d, id) := UpsertRoot(db, path, now);
      ScanConsistent(d, id, fs[path], now);
      var scanned := Scan(d, id, fs[path], now).0;
      MarkScannedConsistent(scanned, id, now);
      var e := MarkScanned(scanned, id, now);
      ExtendsTransitive(db, d, scanned);
      ExtendsTransitive(db, scanned, e);
      forall other, files | other != path && Mirrors(db, other, files) ensures Mirrors(e, other, files) {
        SoundResolves(db);
        PathKept(db, d, id, path);
        OtherPathKept(db, d, scanned, id, path, other, files);
      }
    } else {
      assert Extends(db, db) by { ExtendsSelf(db); }
    }
  }

  lemma SoundResolves(db: Db)
    requires Sound(db)
    ensures TracksResolve(db)
  {
  }

  lemma PathKept(db: Db, d: Db, id: nat, path: string)
    requires Extends(db, d) && id in d.roots && d.roots[id].path == path
    ensures id in db.roots ==> db.roots[id].path == path
  {
  }

  lemma {:induction false} ScanPathsOk(db: Db, paths: seq<string>, fs: Filesystem, now: int)
    requires Consistent(db) && ValidFs(fs)
    ensures var e := ScanPaths(db, paths, fs, now);
            && Consistent(e) && Extends(db, e)
            && (forall p | p in fs && AllReadable(fs[p]) && (p in paths || Mirrors(db, p, FilesAt(fs, p))) ::
                  Mirrors(e, p, FilesAt(fs, p)))
    decreases |paths|
  {
    hide ScanPath, Extends, Mirrors, Consistent, AllReadable, ValidFs;
    if paths == [] {
      ExtendsSelf(db);
    } else {
      var d := ScanPath(db, paths[0], fs, now);
      ScanPathOk(db, paths[0], fs, now);
      ScanPathsOk(d, paths[1..], fs, now);
      ExtendsTransitive(db, d, ScanPaths(d, paths[1..], fs, now));
      forall p | p in fs && AllReadable(fs[p]) && (p in paths || Mirrors(db, p, FilesAt(fs, p)))
        ensures p in paths[1..] || Mirrors(d, p, FilesAt(fs, p))
      {
      }
    }
  }

  /** Retiring what is not configured keeps the invariants and leaves configured paths alone. */
  lemma RetireOk(db: Db, paths: seq<string>, now: int)
    requires Consistent(db)
    ensures var e := RetireUnconfigured(db, paths, now);
            && Consistent(e) && Extends(db, e)
            && (forall p, files | p in paths && Mirrors(db, p, files) :: Mirrors(e, p, files))
            && (forall i | i in e.tracks && e.tracks[i].deletedAt.None? ::
                  e.tracks[i].root in e.roots && e.roots[e.tracks[i].root].path in paths)
  {
    hide Sound, Extends, Mirrors;
    var gone := DroppedTracks(db, paths);
    var d := DeleteAll(db, gone, now);
    var e := RetireUnconfigured(db, paths, now);
    TracksRewritten(db, d);
    assert UniqueRoots(d.roots) by { SoundUnique(d); }
    RootsRewritten(d, e);
    ExtendsTransitive(db, d, e);
    forall p, files | p in paths && Mirrors(db, p, files) ensures Mirrors(e, p, files) {
      SameMirrors(db, e, p, files);
    }
  }

  /** One run: the invariants hold, nothing loses its identity, only configured roots have live tracks,
      and each configured path whose files can all be read mirrors them. */
  lemma RunOk(db: Db, paths: seq<string>, fs: Filesystem, now: int)
    requires Consistent(db) && ValidFs(fs)
    ensures var e := Run(db, paths, fs, now);
            && Consistent(e) && Extends(db, e)
            && (forall p | p in paths && p in fs && AllReadable(fs[p]) :: Mirrors(e, p, FilesAt(fs, p)))
            && (paths != [] ==> forall i | i in e.tracks && e.tracks[i].deletedAt.None? ::
                  e.tracks[i].root in e.roots && e.roots[e.tracks[i].root].path in paths)
  {
    hide ScanPaths, RetireUnconfigured, Extends, Mirrors, Consistent, AllReadable, ValidFs;
    if paths == [] {
      ExtendsSelf(db);
    } else {
      var d := ScanPaths(db, paths, fs, now);
      ScanPathsOk(db, paths, fs, now);
      RetireOk(d, paths, now);
      ExtendsTransitive(db, d, RetireUnconfigured(d, paths, now));
    }
  }

  // ---------------------------------------------------------------------------------------------
  // What a run does to each root and its tracks
  // ---------------------------------------------------------------------------------------------

  ghost function RootAt(db: Db, path: string): Option<Root>
  {
    var found := FindRoot(db.roots, path);
    if found.None? then None else Some(db.roots[found.value])
  }

  lemma RootAtUnique(db: Db, path: string, r: nat)
    requires UniqueRoots(db.roots) && r in db.roots && db.roots[r].path == path
    ensures RootAt(db, path) == Some(db.roots[r])
  {
  }

  /** The same root at a path. */
  lemma SameRoot(db: Db, d: Db, path: string)
    requires UniqueRoots(db.roots) && UniqueRoots(d.roots)
    requires forall r | r in db.roots && db.roots[r].path == path :: r in d.roots && d.roots[r] == db.roots[r]
    requires forall r | r in d.roots && d.roots[r].path == path :: r in db.roots && db.roots[r].path == path
    ensures RootAt(d, path) == RootAt(db, path)
  {
    var found := FindRoot(db.roots, path);
    if found.Some? {
      RootAtUnique(d, path, found.value);
    }
  }

  /** The tracks of a path are the same rows. */
  predicate SameTracksAt(db: Db, d: Db, path: string)
  {
    && (forall i | i in db.tracks && AtPath(db, db.tracks[i], path) ::
          i in d.tracks && d.tracks[i] == db.tracks[i] && AtPath(d, d.tracks[i], path))
    && (forall i | i in d.tracks && AtPath(d, d.tracks[i], path) :: i in db.tracks && AtPath(db, db.tracks[i], path))
  }

  lemma SameTracksTransitive(a: Db, b: Db, c: Db, path: string)
    requires SameTracksAt(a, b, path) && SameTracksAt(b, c, path)
    ensures SameTracksAt(a, c, path)
  {
  }

  /** Scanning one path, step by step. */
  lemma ScanPathShape(db: Db, path: string, fs: Filesystem, now: int) returns (id: nat)
    requires Consistent(db) && ValidFs(fs) && path in fs
    ensures var e := ScanPath(db, path, fs, now);
            && Consistent(e) && id in e.roots && e.roots == db.roots[id := e.roots[id]]
            && e.roots[id] == Root(path, if id in db.roots then db.roots[id].addedAt else ToEpochMillis(now),
                                   Some(ToEpochMillis(now)), None)
            && (id in db.roots ==> db.roots[id].path == path)
            && (forall i | i in e.tracks && e.tracks[i].root != id :: i in db.tracks && e.tracks[i] == db.tracks[i])
            && (forall i | i in db.tracks && db.tracks[i].root != id :: i in e.tracks && e.tracks[i] == db.tracks[i])
  {
    hide Sound, UpsertRoot, Scan, RetiredIsEmpty;
    UpsertRootConsistent(db, path, now);
    var (d, r) := UpsertRoot(db, path, now);
    id := r;
    UpsertRootShape(db, path, now);
    ScanConsistent(d, id, fs[path], now);
    MarkScannedConsistent(Scan(d, id, fs[path], now).0, id, now);
  }

  /** Scanning a path that is not there, or another one, leaves a path alone. */
  lemma ScanPathFrame(db: Db, path: string, fs: Filesystem, now: int, other: string)
    requires Consistent(db) && ValidFs(fs) && !(path == other && path in fs)
    ensures var e := ScanPath(db, path, fs, now);
            RootAt(e, other) == RootAt(db, other) && SameTracksAt(db, e, other)
  {
    if path in fs {
      hide ScanPath, ValidFs;
      var e := ScanPath(db, path, fs, now);
      var id := ScanPathShape(db, path, fs, now);
      SoundUnique(db);
      SoundUnique(e);
      SoundResolves(db);
      hide Sound, RootAt;
      SameRoot(db, e, other);
      forall i | i in db.tracks && AtPath(db, db.tracks[i], other)
        ensures i in e.tracks && e.tracks[i] == db.tracks[i] && AtPath(e, e.tracks[i], other)
      {
      }
      forall i | i in e.tracks && AtPath(e, e.tracks[i], other) ensures i in db.tracks && AtPath(db, db.tracks[i], other) {
        assert TrackResolves(db, db.tracks[i]);
      }
    }
  }

  lemma {:induction false} ScanPathsFrame(db: Db, paths: seq<string>, fs: Filesystem, now: int, path: string)
    requires Consistent(db) && ValidFs(fs) && !(path in paths && path in fs)
    ensures var e := ScanPaths(db, paths, fs, now);
            RootAt(e, path) == RootAt(db, path) && SameTracksAt(db, e, path)
    decreases |paths|
  {
    hide ScanPath, Consistent, ValidFs, RootAt, SameTracksAt;
    if paths == [] {
      assert SameTracksAt(db, db, path) by { SameTracksSelf(db, path); }
    } else {
      var d := ScanPath(db, paths[0], fs, now);
      ScanPathOk(db, paths[0], fs, now);
      ScanPathFrame(db, paths[0], fs, now, path);
      ScanPathsFrame(d, paths[1..], fs, now, path);
      SameTracksTransitive(db, d, ScanPaths(d, paths[1..], fs, now), path);
    }
  }

  lemma SameTracksSelf(db: Db, path: string)
    ensures SameTracksAt(db, db, path)
  {
  }

  /** The root of a path that has been scanned: active, marked as scanned now, added now unless it was known. */
  function ScannedRoot(before: Option<Root>, path: string, now: int): Root
  {
    Root(path, if before.Some? then before.value.addedAt else ToEpochMillis(now), Some(ToEpochMillis(now)), None)
  }

  lemma ScanPathRoot(db: Db, path: string, fs: Filesystem, now: int)
    requires Consistent(db) && ValidFs(fs) && path in fs
    ensures RootAt(ScanPath(db, path, fs, now), path) == Some(ScannedRoot(RootAt(db, path), path, now))
  {
    hide ScanPath, ValidFs;
    var e := ScanPath(db, path, fs, now);
    var id := ScanPathShape(db, path, fs, now);
    SoundUnique(db);
    SoundUnique(e);
    hide Sound;
    RootAtUnique(e, path, id);
    forall r | r in db.roots && db.roots[r].path == path ensures r == id {
      assert e.roots[r].path == path;
    }
  }

  lemma {:induction false} ScanPathsRoot(db: Db, paths: seq<string>, fs: Filesystem, now: int, path: string)
    requires Consistent(db) && ValidFs(fs) && path in paths && path in fs
    ensures RootAt(ScanPaths(db, paths, fs, now), path) == Some(ScannedRoot(RootAt(db, path), path, now))
    decreases |paths|
  {
    hide ScanPath, Consistent, ValidFs, RootAt, SameTracksAt;
    var d := ScanPath(db, paths[0], fs, now);
    ScanPathOk(db, paths[0], fs, now);
    if paths[0] == path {
      ScanPathRoot(db, path, fs, now);
    } else {
      ScanPathFrame(db, paths[0], fs, now, path);
    }
    if path in paths[1..] {
      ScanPathsRoot(d, paths[1..], fs, now, path);
    } else {
      ScanPathsFrame(d, paths[1..], fs, now, path);
    }
  }

  lemma RetireRoots(db: Db, paths: seq<string>, now: int, path: string)
    requires Sound(db)
    ensures var before, after := RootAt(db, path), RootAt(RetireUnconfigured(db, paths, now), path);
            after == if path !in paths && before.Some? && before.value.retiredAt.None?
                     then Some(before.value.(retiredAt := Some(ToEpochMillis(now)))) else before
  {
    SoundUnique(db);
    hide Sound;
    var e := RetireUnconfigured(db, paths, now);
    var found := FindRoot(db.roots, path);
    if found.Some? {
      assert UniqueRoots(e.roots);
      RootAtUnique(e, path, found.value);
    } else {
      assert forall r | r in e.roots :: e.roots[r].path == db.roots[r].path;
    }
  }

  /** What a run does to the root of each path. Configured and there: found or added, revived, marked as
      scanned now. Configured and not there: nothing. Not configured: retired now if it was active. Without
      configured paths a run does nothing at all. */
  lemma RunRoots(db: Db, paths: seq<string>, fs: Filesystem, now: int, path: string)
    requires Consistent(db) && ValidFs(fs)
    ensures paths == [] ==> Run(db, paths, fs, now) == db
    ensures paths != [] ==>
              var before, after := RootAt(db, path), RootAt(Run(db, paths, fs, now), path);
              after == if path in paths && path in fs then Some(ScannedRoot(before, path, now))
                       else if path !in paths && before.Some? && before.value.retiredAt.None?
                       then Some(before.value.(retiredAt := Some(ToEpochMillis(now))))
                       else before
  {
    hide ScanPaths, RetireUnconfigured, ValidFs, RootAt, RetiredIsEmpty, ScannedRoot;
    if paths != [] {
      var d := ScanPaths(db, paths, fs, now);
      ScanPathsOk(db, paths, fs, now);
      hide Sound;
      RetireRoots(d, paths, now, path);
      if path in paths && path in fs {
        ScanPathsRoot(db, paths, fs, now, path);
      } else {
        ScanPathsFrame(db, paths, fs, now, path);
      }
    }
  }

  /** What a run does to the tracks of a path it does not scan: nothing if the path is configured and just not
      there, as when a disk is not mounted; otherwise those still live are deleted now, and no field of theirs
      but that changes. */
  lemma RunTracks(db: Db, paths: seq<string>, fs: Filesystem, now: int, path: string, i: nat)
    requires Consistent(db) && ValidFs(fs) && paths != [] && !(path in paths && path in fs)
    ensures var e := Run(db, paths, fs, now);
            && (i in e.tracks && AtPath(e, e.tracks[i], path) <==> i in db.tracks && AtPath(db, db.tracks[i], path))
            && (i in db.tracks && AtPath(db, db.tracks[i], path) ==>
                  e.tracks[i] == if path !in paths && db.tracks[i].deletedAt.None?
                                 then db.tracks[i].(deletedAt := Some(ToEpochMillis(now))) else db.tracks[i])
  {
    hide ScanPaths, ValidFs, Sound;
    ScanPathsOk(db, paths, fs, now);
    ScanPathsFrame(db, paths, fs, now, path);
  }

  // ---------------------------------------------------------------------------------------------
  // Any number of runs, with changing configurations and filesystems
  // ---------------------------------------------------------------------------------------------

  datatype Invocation = Invocation(paths: seq<string>, fs: Filesystem, now: int)

  ghost function Runs(db: Db, invocations: seq<Invocation>): Db
    decreases |invocations|
  {
    if invocations == [] then db
    else Runs(Run(db, invocations[0].paths, invocations[0].fs, invocations[0].now), invocations[1..])
  }

  lemma {:induction false} RunsOk(db: Db, invocations: seq<Invocation>)
    requires Consistent(db) && forall k | 0 <= k < |invocations| :: ValidFs(invocations[k].fs)
    ensures Consistent(Runs(db, invocations)) && Extends(db, Runs(db, invocations))
    decreases |invocations|
  {
    hide Run, Consistent, Extends, ValidFs;
    if invocations == [] {
      ExtendsSelf(db);
    } else {
      var first := invocations[0];
      var d := Run(db, first.paths, first.fs, first.now);
      RunOk(db, first.paths, first.fs, first.now);
      RunsOk(d, invocations[1..]);
      ExtendsTransitive(db, d, Runs(d, invocations[1..]));
    }
  }

  /** A (root path, relative path) has one track id forever, and rows never move to another. */
  lemma OneIdForever(db: Db, invocations: seq<Invocation>, i: nat, j: nat, path: string)
    requires Consistent(db) && forall k | 0 <= k < |invocations| :: ValidFs(invocations[k].fs)
    requires i in db.tracks && AtPath(db, db.tracks[i], path)
    requires var e := Runs(db, invocations);
             j in e.tracks && AtPath(e, e.tracks[j], path) && e.tracks[j].path == db.tracks[i].path
    ensures i == j
  {
    RunsOk(db, invocations);
    KeyDeterminesId(db, Runs(db, invocations), i, j, path);
  }

  lemma KeyDeterminesId(db: Db, e: Db, i: nat, j: nat, path: string)
    requires Sound(e) && Extends(db, e)
    requires i in db.tracks && AtPath(db, db.tracks[i], path)
    requires j in e.tracks && AtPath(e, e.tracks[j], path) && e.tracks[j].path == db.tracks[i].path
    ensures i == j && AtPath(e, e.tracks[i], path)
  {
    SoundUnique(e);
    hide Sound;
    assert AtPath(e, e.tracks[i], path);
    assert e.tracks[i].root == e.tracks[j].root;
    assert SameKey(e.tracks[i], e.tracks[j].root, e.tracks[j].path);
  }

  function LiveIds(db: Db, path: string): set<nat>
  {
    set i | i in db.tracks && AtPath(db, db.tracks[i], path) && db.tracks[i].deletedAt.None?
  }

  lemma SameMirrorSameIds(d: Db, e: Db, path: string, files: set<string>)
    requires Sound(e) && Extends(d, e) && Mirrors(d, path, files) && Mirrors(e, path, files)
    ensures LiveIds(d, path) == LiveIds(e, path)
  {
    hide Sound;
    forall i | i in LiveIds(d, path) ensures i in LiveIds(e, path) {
      assert AtPath(e, e.tracks[i], path);
    }
    forall j | j in LiveIds(e, path) ensures j in LiveIds(d, path) {
      assert e.tracks[j].path in files;
      var i :| i in d.tracks && AtPath(d, d.tracks[i], path) && d.tracks[i].path == e.tracks[j].path;
      KeyDeterminesId(d, e, i, j, path);
    }
  }

  /** Dropping a path and listing it again, with any runs in between, brings back the same live track
      ids when the same files can be read; and no playlist is touched by any of it. */
  lemma DropAndReturn(db: Db, first: Invocation, between: seq<Invocation>, last: Invocation, path: string)
    requires Consistent(db) && ValidFs(first.fs) && ValidFs(last.fs)
    requires forall k | 0 <= k < |between| :: ValidFs(between[k].fs)
    requires path in first.paths && path in first.fs && AllReadable(first.fs[path])
    requires path in last.paths && path in last.fs && AllReadable(last.fs[path])
    requires FilesAt(last.fs, path) == FilesAt(first.fs, path)
    ensures var d := Run(db, first.paths, first.fs, first.now);
            var e := Run(Runs(d, between), last.paths, last.fs, last.now);
            LiveIds(e, path) == LiveIds(d, path) && e.entries == db.entries && e.playlists == db.playlists
  {
    hide Run, Runs, Mirrors, AllReadable, ValidFs, Sound;
    RunOk(db, first.paths, first.fs, first.now);
    var d := Run(db, first.paths, first.fs, first.now);
    RunsOk(d, between);
    var m := Runs(d, between);
    RunOk(m, last.paths, last.fs, last.now);
    var e := Run(m, last.paths, last.fs, last.now);
    ExtendsTransitive(d, m, e);
    SameMirrorSameIds(d, e, path, FilesAt(first.fs, path));
  }

  /** Once a run without it is over, a root has no live track and is retired. */
  lemma DroppedRootIsRetired(db: Db, paths: seq<string>, fs: Filesystem, now: int, path: string)
    requires Consistent(db) && ValidFs(fs) && paths != [] && path !in paths
    ensures var e := Run(db, paths, fs, now);
            && LiveIds(e, path) == {}
            && (forall r | r in e.roots && e.roots[r].path == path :: e.roots[r].retiredAt.Some?)
  {
    hide ScanPaths, Consistent, Extends, Mirrors, ValidFs;
    RunOk(db, paths, fs, now);
  }
}
