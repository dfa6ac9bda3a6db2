/** The library scanner: one walk of a root brings the track table in line with the files seen. */
module Scanner {
  import opened Common
  import opened Database

  datatype Metadata = Metadata(
    title: string, artist: Option<string>, album: Option<string>, albumArtist: Option<string>, details: Details)

  /** One directory entry of a walk. `regular` is false for symlinks and anything but regular files;
      `stat` is size and modification time, `meta` and `hash` what reading the content gives. */
  datatype FileEntry = FileEntry(
    path: string, regular: bool, extension: string,
    stat: Option<(nat, int)>, meta: Option<Metadata>, hash: Option<string>)

  const SUPPORTED := {".mp3", ".flac", ".m4a", ".aac", ".wav"}

  predicate IsIndexed(f: FileEntry) { f.regular && f.extension in SUPPORTED }

  /** The supported regular files of a walk, in walk order. */
  function Indexed(walk: seq<FileEntry>): seq<FileEntry>
  {
    if walk == [] then []
    else if IsIndexed(walk[0]) then [walk[0]] + Indexed(walk[1..])
    else Indexed(walk[1..])
  }

  predicate DistinctPaths(files: seq<FileEntry>)
  {
    forall i, j | 0 <= i < j < |files| :: files[i].path != files[j].path
  }

  datatype Outcome = Inserted | Updated | Unchanged | Skipped

  datatype ScanResult = ScanResult(inserted: nat, updated: nat, kept: nat, deleted: nat, skipped: nat)

  // ---------------------------------------------------------------------------------------------
  // One file
  // ---------------------------------------------------------------------------------------------

  ghost function RowAt(db: Db, root: nat, path: string): Option<Track>
  {
    var found := FindTrack(db.tracks, root, path);
    if found.None? then None else Some(db.tracks[found.value])
  }

  predicate IsLive(row: Option<Track>) { row.Some? && row.value.deletedAt.None? }

  /** The cheap check: same size and same modification time to the millisecond. */
  predicate SameStat(row: Track, f: FileEntry)
  {
    f.stat.Some? && f.stat.value.0 == row.size &&
    ToEpochMillis(f.stat.value.1) == ToEpochMillis(FromEpochMillis(row.modifiedMs))
  }

  predicate ContentReads(f: FileEntry) { f.meta.Some? && f.hash.Some? }

  /** What `processFile` counts a file as, given the row it finds. */
  function Judge(row: Option<Track>, f: FileEntry): Outcome
  {
    if f.stat.None? then Skipped
    else if !IsLive(row) then (if ContentReads(f) then Inserted else Skipped)
    else if SameStat(row.value, f) then Unchanged
    else if !ContentReads(f) then Skipped
    else if f.hash.value == row.value.hash then Unchanged
    else Updated
  }

  /** The row is left as it is. */
  predicate LeavesRow(row: Option<Track>, f: FileEntry)
  {
    Judge(row, f) == Skipped || (IsLive(row) && SameStat(row.value, f))
  }

  function UpsertFor(root: nat, f: FileEntry): TrackUpsert
    requires f.stat.Some? && ContentReads(f)
  {
    var m := f.meta.value;
    TrackUpsert(root, f.path, m.title, m.artist, m.album, m.albumArtist, m.details,
                f.stat.value.0, f.hash.value, f.stat.value.1)
  }

  ghost function ProcessFile(db: Db, root: nat, f: FileEntry): (Db, Outcome)
  {
    var row := RowAt(db, root, f.path);
    if LeavesRow(row, f) then (db, Judge(row, f)) else (Upsert(db, UpsertFor(root, f)).0, Judge(row, f))
  }

  /** After a file is processed its row is live with the file's size and time, unless it was skipped. */
  predicate Settled(row: Option<Track>, f: FileEntry)
  {
    IsLive(row) && SameStat(row.value, f)
  }

  /** The row has the file's size and, to the millisecond, its modification time. */
  predicate SameFile(t: Track, f: FileEntry)
  {
    f.stat.Some? && t.size == f.stat.value.0 && t.modifiedMs == ToEpochMillis(f.stat.value.1)
  }

  /** The row says of the file what reading it gives. */
  predicate HoldsFile(db: Db, t: Track, f: FileEntry)
  {
    && SameFile(t, f) && f.hash == Some(t.hash) && f.meta.Some?
    && t.title == f.meta.value.title && t.details == f.meta.value.details
    && NamesArtist(db, t.artist, f.meta.value.artist)
    && NamesAlbum(db, t.album, f.meta.value.album,
                  if f.meta.value.albumArtist.Some? then f.meta.value.albumArtist else f.meta.value.artist)
  }

  lemma SameStatIsSameFile(t: Track, f: FileEntry)
    ensures SameStat(t, f) <==> SameFile(t, f)
  {
    MillisRoundTrip(t.modifiedMs);
  }

  lemma HoldsStays(db: Db, d: Db, t: Track, f: FileEntry)
    requires HoldsFile(db, t, f) && Extends(db, d)
    ensures HoldsFile(d, t, f)
  {
  }

  /** What one file leads to: its row is left alone, or holds the file. */
  ghost predicate Handled(before: Option<Track>, d: Db, root: nat, f: FileEntry)
  {
    var after := RowAt(d, root, f.path);
    if LeavesRow(before, f) then after == before else IsLive(after) && HoldsFile(d, after.value, f)
  }

  lemma HandledIsSettled(before: Option<Track>, d: Db, root: nat, f: FileEntry)
    requires Handled(before, d, root, f) && Judge(before, f) != Skipped
    ensures Settled(RowAt(d, root, f.path), f)
  {
    var after := RowAt(d, root, f.path);
    SameStatIsSameFile(after.value, f);
  }

  lemma RowAtUnique(db: Db, root: nat, path: string, i: nat)
    requires UniqueTracks(db.tracks) && i in db.tracks && SameKey(db.tracks[i], root, path)
    ensures FindTrack(db.tracks, root, path) == Some(i) && RowAt(db, root, path) == Some(db.tracks[i])
  {
  }

  /** One file: the tables stay sound, only the row of its key may change, and it is settled or skipped
      with nothing written. */
  lemma ProcessFileOk(db: Db, root: nat, f: FileEntry)
    requires Sound(db) && root in db.roots
    ensures var (d, o) := ProcessFile(db, root, f);
            && Sound(d) && Extends(db, d) && d.roots == db.roots
            && (o == Skipped ==> d == db)
            && Handled(RowAt(db, root, f.path), d, root, f)
            && (forall i | i in d.tracks && !SameKey(d.tracks[i], root, f.path) ::
                  i in db.tracks && d.tracks[i] == db.tracks[i])
  {
    hide Upsert, Sound;
    var row := RowAt(db, root, f.path);
    if !LeavesRow(row, f) {
      var data := UpsertFor(root, f);
      UpsertSound(db, data);
      UpsertDescribes(db, data);
      var (d, id) := Upsert(db, data);
      assert UniqueTracks(d.tracks) by { SoundUnique(d); }
      RowAtUnique(d, root, f.path, id);
    }
  }

  lemma SoundUnique(db: Db)
    requires Sound(db)
    ensures UniqueTracks(db.tracks) && UniqueRoots(db.roots)
  {
  }

  /** Two tables with the same rows of a key find the same row. */
  lemma SameRow(db: Db, d: Db, root: nat, path: string)
    requires UniqueTracks(db.tracks) && UniqueTracks(d.tracks)
    requires forall i | i in db.tracks && SameKey(db.tracks[i], root, path) :: i in d.tracks && d.tracks[i] == db.tracks[i]
    requires forall i | i in d.tracks && SameKey(d.tracks[i], root, path) :: i in db.tracks && d.tracks[i] == db.tracks[i]
    ensures RowAt(d, root, path) == RowAt(db, root, path)
  {
    var before, after := FindTrack(db.tracks, root, path), FindTrack(d.tracks, root, path);
    if before.Some? {
      RowAtUnique(d, root, path, before.value);
    }
    if after.Some? {
      RowAtUnique(db, root, path, after.value);
    }
  }

  lemma ProcessFileFrame(db: Db, root: nat, f: FileEntry, r: nat, path: string)
    requires Sound(db) && root in db.roots && !(r == root && path == f.path)
    ensures RowAt(ProcessFile(db, root, f).0, r, path) == RowAt(db, r, path)
  {
    hide ProcessFile, Sound;
    ProcessFileOk(db, root, f);
    var d := ProcessFile(db, root, f).0;
    SoundUnique(db);
    SoundUnique(d);
    SameRow(db, d, r, path);
  }

  // ---------------------------------------------------------------------------------------------
  // All files of a walk
  // ---------------------------------------------------------------------------------------------

  ghost function ProcessAll(db: Db, root: nat, files: seq<FileEntry>): (Db, seq<Outcome>)
    decreases |files|
  {
    if files == [] then (db, [])
    else
      var (d, o) := ProcessFile(db, root, files[0]);
      var (e, os) := ProcessAll(d, root, files[1..]);
      (e, [o] + os)
  }

  /** Each file is judged by the row it had before, which is then left as it was or holds the file. */
  ghost predicate Judged(db: Db, e: Db, root: nat, f: FileEntry, o: Outcome)
  {
    var before := RowAt(db, root, f.path);
    o == Judge(before, f) && Handled(before, e, root, f)
  }

  predicate InFiles(t: Track, root: nat, files: seq<FileEntry>)
  {
    t.root == root && exists j :: 0 <= j < |files| && files[j].path == t.path
  }

  /** Rows of keys that are not walked are as before. */
  predicate OthersKept(db: Db, e: Db, root: nat, files: seq<FileEntry>)
  {
    forall i | i in e.tracks && !InFiles(e.tracks[i], root, files) :: i in db.tracks && e.tracks[i] == db.tracks[i]
  }

  lemma {:induction false} ProcessAllOk(db: Db, root: nat, files: seq<FileEntry>)
    requires Sound(db) && root in db.roots && DistinctPaths(files)
    ensures var (e, os) := ProcessAll(db, root, files);
            && Sound(e) && Extends(db, e) && e.roots == db.roots && |os| == |files|
            && OthersKept(db, e, root, files)
            && (forall j | 0 <= j < |files| :: Judged(db, e, root, files[j], os[j]))
    decreases |files|
  {
    if files != [] {
      hide ProcessFile, Sound, Judge, Settled, RowAt, OthersKept, Judged, Extends;
      var f, rest := files[0], files[1..];
      var (d, o) := ProcessFile(db, root, f);
      ProcessFileOk(db, root, f);
      ProcessAllOk(d, root, rest);
      var (e, os) := ProcessAll(d, root, rest);
      ExtendsTransitive(db, d, e);
      OthersKeptTwice(db, root, files, d, e);
      FirstJudged(db, root, files, e);
      forall j | 0 < j < |files| ensures Judged(db, e, root, files[j], os[j - 1]) {
        assert files[j] == rest[j - 1];
        LaterJudged(db, root, f, e, files[j], os[j - 1]);
      }
    }
  }

  lemma OthersKeptTwice(db: Db, root: nat, files: seq<FileEntry>, d: Db, e: Db)
    requires Sound(db) && root in db.roots && files != []
    requires d == ProcessFile(db, root, files[0]).0 && OthersKept(d, e, root, files[1..])
    ensures OthersKept(db, e, root, files)
  {
    hide ProcessFile, Sound;
    ProcessFileOk(db, root, files[0]);
    forall i | i in e.tracks && !InFiles(e.tracks[i], root, files)
      ensures i in db.tracks && e.tracks[i] == db.tracks[i]
    {
      var t := e.tracks[i];
      assert InFiles(t, root, files[1..]) ==> InFiles(t, root, files) by {
        assert forall j | 0 <= j < |files| - 1 :: files[1..][j] == files[j + 1];
      }
      assert SameKey(t, root, files[0].path) ==> InFiles(t, root, files);
    }
  }

  lemma FirstJudged(db: Db, root: nat, files: seq<FileEntry>, e: Db)
    requires Sound(db) && root in db.roots && files != [] && DistinctPaths(files)
    requires var d := ProcessFile(db, root, files[0]).0;
             Sound(e) && Extends(d, e) && OthersKept(d, e, root, files[1..])
    ensures Judged(db, e, root, files[0], ProcessFile(db, root, files[0]).1)
  {
    hide Sound, Judge, Settled, LeavesRow, HoldsFile, Upsert;
    var (d, o) := ProcessFile(db, root, files[0]);
    ProcessFileOk(db, root, files[0]);
    SoundUnique(d);
    SoundUnique(e);
    forall i | i in e.tracks && SameKey(e.tracks[i], root, files[0].path)
      ensures i in d.tracks && e.tracks[i] == d.tracks[i]
    {
      assert !InFiles(e.tracks[i], root, files[1..]);
    }
    forall i | i in d.tracks && SameKey(d.tracks[i], root, files[0].path)
      ensures i in e.tracks && e.tracks[i] == d.tracks[i]
    {
      assert !InFiles(e.tracks[i], root, files[1..]);
    }
    hide RowAt;
    SameRow(d, e, root, files[0].path);
    if !LeavesRow(RowAt(db, root, files[0].path), files[0]) {
      HoldsStays(d, e, RowAt(d, root, files[0].path).value, files[0]);
    }
  }

  lemma LaterJudged(db: Db, root: nat, first: FileEntry, e: Db, f: FileEntry, o: Outcome)
    requires Sound(db) && root in db.roots && f.path != first.path
    requires Judged(ProcessFile(db, root, first).0, e, root, f, o)
    ensures Judged(db, e, root, f, o)
  {
    hide ProcessFile, Sound;
    ProcessFileFrame(db, root, first, root, f.path);
  }

  // ---------------------------------------------------------------------------------------------
  // Deletions and the whole scan
  // ---------------------------------------------------------------------------------------------

  function PathsOf(files: seq<FileEntry>): set<string>
  {
    set f | f in files :: f.path
  }

  predicate IsUnseen(t: Track, root: nat, seen: set<string>)
  {
    t.root == root && t.deletedAt.None? && t.path !in seen
  }

  function Unseen(db: Db, root: nat, seen: set<string>): set<nat>
  {
    set i | i in db.tracks && IsUnseen(db.tracks[i], root, seen)
  }

  /** Soft-deletes a set of tracks. */
  function DeleteAll(db: Db, ids: set<nat>, now: int): Db
  {
    db.(tracks := map i | i in db.tracks ::
          if i in ids then db.tracks[i].(deletedAt := Some(ToEpochMillis(now))) else db.tracks[i])
  }

  function Count(os: seq<Outcome>, o: Outcome): nat
  {
    if os == [] then 0 else (if os[0] == o then 1 else 0) + Count(os[1..], o)
  }

  /** `scan`: process every supported file of the walk, then soft-delete what was not seen. */
  ghost function Scan(db: Db, root: nat, walk: seq<FileEntry>, now: int): (Db, ScanResult)
  {
    var files := Indexed(walk);
    var (e, os) := ProcessAll(db, root, files);
    var gone := Unseen(e, root, PathsOf(files));
    (DeleteAll(e, gone, now),
     ScanResult(Count(os, Inserted), Count(os, Updated), Count(os, Unchanged), |gone|, Count(os, Skipped)))
  }

  lemma {:induction false} CountsAddUp(os: seq<Outcome>)
    ensures Count(os, Inserted) + Count(os, Updated) + Count(os, Unchanged) + Count(os, Skipped) == |os|
    decreases |os|
  {
    if os != [] {
      CountsAddUp(os[1..]);
    }
  }

  /** What one scan of a complete walk establishes. */
  lemma ScanReconciles(db: Db, root: nat, walk: seq<FileEntry>, now: int)
    requires Sound(db) && root in db.roots && DistinctPaths(Indexed(walk))
    ensures var files := Indexed(walk);
            var (d, r) := Scan(db, root, walk, now);
            && Sound(d) && Extends(db, d) && d.roots == db.roots
            && r.inserted + r.updated + r.kept + r.skipped == |files|
            && (forall f | f in files :: Judged(db, d, root, f, Judge(RowAt(db, root, f.path), f)))
            && (forall i | i in d.tracks && d.tracks[i].root == root && d.tracks[i].path !in PathsOf(files) ::
                  d.tracks[i].deletedAt.Some?)
            && (forall i | i in d.tracks && d.tracks[i].root != root :: i in db.tracks && d.tracks[i] == db.tracks[i])
  {
    hide Sound, Judge, Settled, RowAt, ProcessAll, Indexed, Extends;
    var files := Indexed(walk);
    var (e, os) := ProcessAll(db, root, files);
    ProcessAllOk(db, root, files);
    CountsAddUp(os);
    var seen := PathsOf(files);
    var d := DeleteAll(e, Unseen(e, root, seen), now);
    TracksRewritten(e, d);
    ExtendsTransitive(db, e, d);
    forall f | f in files ensures Judged(db, d, root, f, Judge(RowAt(db, root, f.path), f)) {
      DeletionSparesSeen(e, root, seen, now, f.path);
      var j :| 0 <= j < |files| && files[j] == f;
      assert Judged(db, e, root, files[j], os[j]);
    }
    forall i | i in d.tracks && d.tracks[i].root != root ensures i in db.tracks && d.tracks[i] == db.tracks[i] {
      assert !InFiles(e.tracks[i], root, files);
    }
  }

  /** Deletion detection counts and marks exactly the live rows of the root whose files were not seen;
      rows of the root that were deleted before stay as they are. */
  lemma ScanDeletes(db: Db, root: nat, walk: seq<FileEntry>, now: int)
    requires Sound(db) && root in db.roots && DistinctPaths(Indexed(walk))
    ensures var seen := PathsOf(Indexed(walk));
            var (d, r) := Scan(db, root, walk, now);
            && r.deleted == |Unseen(db, root, seen)|
            && forall i | i in db.tracks && db.tracks[i].root == root && db.tracks[i].path !in seen ::
                 i in d.tracks && d.tracks[i] == if i in Unseen(db, root, seen)
                                                 then db.tracks[i].(deletedAt := Some(ToEpochMillis(now)))
                                                 else db.tracks[i]
  {
    hide Sound, ProcessAll, Indexed, Judged;
    var files := Indexed(walk);
    var e := ProcessAll(db, root, files).0;
    ProcessAllOk(db, root, files);
    forall i | i in e.tracks && e.tracks[i].path !in PathsOf(files) ensures i in db.tracks && e.tracks[i] == db.tracks[i] {
      assert !InFiles(e.tracks[i], root, files);
    }
    assert Unseen(e, root, PathsOf(files)) == Unseen(db, root, PathsOf(files));
  }

  lemma DeletionSparesSeen(e: Db, root: nat, seen: set<string>, now: int, path: string)
    requires Sound(e) && path in seen
    ensures RowAt(DeleteAll(e, Unseen(e, root, seen), now), root, path) == RowAt(e, root, path)
  {
    SoundUnique(e);
    hide Sound;
    var d := DeleteAll(e, Unseen(e, root, seen), now);
    assert UniqueTracks(d.tracks);
    SameRow(e, d, root, path);
  }

  // ---------------------------------------------------------------------------------------------
  // What a scan writes, and what it reports, said of the tables
  // ---------------------------------------------------------------------------------------------

  /** The row of a file after a scan: as before if it is live and of the file's size and time, or if the
      file cannot be read; otherwise live, and holding the file. */
  ghost predicate InLine(db: Db, d: Db, root: nat, f: FileEntry)
  {
    var before, after := RowAt(db, root, f.path), RowAt(d, root, f.path);
    if before.Some? && before.value.deletedAt.None? && SameFile(before.value, f) then after == before
    else if f.stat.Some? && f.meta.Some? && f.hash.Some? then
      after.Some? && after.value.deletedAt.None? && HoldsFile(d, after.value, f)
    else after == before
  }

  lemma JudgedIsInLine(db: Db, d: Db, root: nat, f: FileEntry, o: Outcome)
    requires Judged(db, d, root, f, o)
    ensures InLine(db, d, root, f)
  {
    hide HoldsFile, RowAt;
    var before := RowAt(db, root, f.path);
    if before.Some? {
      SameStatIsSameFile(before.value, f);
    }
  }

  /** What a scan writes for every file it meets. */
  lemma ScanWrites(db: Db, root: nat, walk: seq<FileEntry>, now: int, f: FileEntry)
    requires Sound(db) && root in db.roots && DistinctPaths(Indexed(walk)) && f in Indexed(walk)
    ensures InLine(db, Scan(db, root, walk, now).0, root, f)
  {
    ScanReconciles(db, root, walk, now);
    hide Sound, Scan, Judged, InLine, Judge, Indexed;
    JudgedIsInLine(db, Scan(db, root, walk, now).0, root, f, Judge(RowAt(db, root, f.path), f));
  }

  lemma {:induction false} IndexedMeaning(walk: seq<FileEntry>, f: FileEntry)
    ensures f in Indexed(walk) <==> f in walk && f.regular && f.extension in {".mp3", ".flac", ".m4a", ".aac", ".wav"}
    decreases |walk|
  {
    if walk != [] {
      IndexedMeaning(walk[1..], f);
      assert f in walk <==> f == walk[0] || f in walk[1..];
    }
  }

  function FileSet(files: seq<FileEntry>): set<FileEntry>
  {
    set f | f in files
  }

  /** The files counted as `o`. */
  ghost function OutcomeSet(db: Db, root: nat, files: seq<FileEntry>, o: Outcome): set<FileEntry>
  {
    set f | f in files && Judge(RowAt(db, root, f.path), f) == o
  }

  lemma HeadIsNew(files: seq<FileEntry>)
    requires files != [] && DistinctPaths(files)
    ensures files[0] !in files[1..] && DistinctPaths(files[1..])
    ensures forall f :: f in files <==> f == files[0] || f in files[1..]
  {
    assert files == [files[0]] + files[1..];
  }

  lemma {:induction false} CountFiles(files: seq<FileEntry>)
    requires DistinctPaths(files)
    ensures |files| == |FileSet(files)|
    decreases |files|
  {
    if files != [] {
      HeadIsNew(files);
      CountFiles(files[1..]);
      assert FileSet(files) == FileSet(files[1..]) + {files[0]};
    }
  }

  /** With every file walked once, counting outcomes is counting files. */
  lemma {:induction false} CountOutcome(db: Db, root: nat, files: seq<FileEntry>, os: seq<Outcome>, o: Outcome)
    requires DistinctPaths(files) && |os| == |files|
    requires forall j | 0 <= j < |files| :: os[j] == Judge(RowAt(db, root, files[j].path), files[j])
    ensures Count(os, o) == |OutcomeSet(db, root, files, o)|
    decreases |files|
  {
    if files != [] {
      hide Judge, RowAt, DistinctPaths, OutcomeSet;
      var rest := files[1..];
      HeadIsNew(files);
      CountOutcome(db, root, rest, os[1..], o);
      OneMoreFile(db, root, files, o);
    }
  }

  lemma OneMoreFile(db: Db, root: nat, files: seq<FileEntry>, o: Outcome)
    requires files != [] && files[0] !in files[1..]
    ensures var counted := OutcomeSet(db, root, files[1..], o);
            && files[0] !in counted
            && OutcomeSet(db, root, files, o) ==
               if Judge(RowAt(db, root, files[0].path), files[0]) == o then counted + {files[0]} else counted
  {
    hide Judge, RowAt;
    assert files == [files[0]] + files[1..];
  }

  lemma OutcomesAreJudgements(db: Db, root: nat, files: seq<FileEntry>)
    requires Sound(db) && root in db.roots && DistinctPaths(files)
    ensures var os := ProcessAll(db, root, files).1;
            |os| == |files| && forall j | 0 <= j < |files| :: os[j] == Judge(RowAt(db, root, files[j].path), files[j])
  {
    hide Sound, Judge, RowAt, ProcessAll, Settled;
    ProcessAllOk(db, root, files);
    var (e, os) := ProcessAll(db, root, files);
    forall j | 0 <= j < |files| ensures os[j] == Judge(RowAt(db, root, files[j].path), files[j]) {
      assert Judged(db, e, root, files[j], os[j]);
    }
  }

  function LiveOf(db: Db, root: nat): set<nat>
  {
    set i | i in db.tracks && db.tracks[i].root == root && db.tracks[i].deletedAt.None?
  }

  /** The row of the file is live and has its size and time. */
  ghost predicate UpToDate(d: Db, root: nat, f: FileEntry)
  {
    var row := RowAt(d, root, f.path);
    row.Some? && row.value.deletedAt.None? && SameFile(row.value, f)
  }

  /** The outcome of a file, read off the tables before and after. */
  lemma OutcomeFromRows(db: Db, d: Db, root: nat, f: FileEntry, o: Outcome)
    requires Judged(db, d, root, f, o)
    ensures var before, after := RowAt(db, root, f.path), RowAt(d, root, f.path);
            && (o == Inserted <==> !IsLive(before) && IsLive(after))
            && (o == Updated <==> IsLive(before) && IsLive(after) && before.value.hash != after.value.hash)
            && (o == Unchanged <==> IsLive(before) && UpToDate(d, root, f) && before.value.hash == after.value.hash)
            && (o == Skipped <==> !UpToDate(d, root, f))
            && (IsLive(before) ==> IsLive(after))
  {
    hide RowAt;
    var before, after := RowAt(db, root, f.path), RowAt(d, root, f.path);
    if before.Some? {
      SameStatIsSameFile(before.value, f);
    }
  }

  /** A row of a key, before and after rows have been written without changing their keys. */
  lemma RowOfId(db: Db, d: Db, root: nat, path: string, i: nat)
    requires Sound(db) && Sound(d) && Extends(db, d) && i in d.tracks && SameKey(d.tracks[i], root, path)
    ensures RowAt(d, root, path) == Some(d.tracks[i])
    ensures RowAt(db, root, path) == if i in db.tracks then Some(db.tracks[i]) else None
  {
    SoundUnique(db);
    SoundUnique(d);
    hide Sound;
    RowAtUnique(d, root, path, i);
    var found := FindTrack(db.tracks, root, path);
    if found.Some? {
      RowAtUnique(d, root, path, found.value);
    }
  }

  /** Files and rows with the same paths are as many. */
  lemma SameCount(files: seq<FileEntry>, some: set<FileEntry>, d: Db, root: nat, ids: set<nat>)
    requires DistinctPaths(files) && some <= FileSet(files) && UniqueTracks(d.tracks)
    requires forall i | i in ids :: i in d.tracks && d.tracks[i].root == root
    requires forall f | f in some :: exists i :: i in ids && d.tracks[i].path == f.path
    requires forall i | i in ids :: exists f :: f in some && f.path == d.tracks[i].path
    ensures |some| == |ids|
  {
    var a := map f | f in some :: f.path;
    var b := map i | i in ids :: d.tracks[i].path;
    forall f, g | f in a && g in a && f != g ensures a[f] != a[g] {
      assert f in files && g in files;
    }
    forall i, j | i in b && j in b && i != j ensures b[i] != b[j] {
      assert !SameKey(d.tracks[i], d.tracks[j].root, d.tracks[j].path);
    }
    assert a.Keys == some && b.Keys == ids;
    hide UniqueTracks, DistinctPaths, FileSet, SameKey;
    SameValues(a, b);
  }

  lemma SameValues<A, B, V>(a: map<A, V>, b: map<B, V>)
    requires forall x, y | x in a && y in a && x != y :: a[x] != a[y]
    requires forall x, y | x in b && y in b && x != y :: b[x] != b[y]
    requires forall x | x in a :: exists y :: y in b && b[y] == a[x]
    requires forall y | y in b :: exists x :: x in a && a[x] == b[y]
    ensures |a.Keys| == |b.Keys|
  {
    InjectiveMap(a);
    InjectiveMap(b);
    assert a.Values == b.Values;
  }

  /** The rows that a scan counts as `o`, said without it. */
  ghost function CountedRows(db: Db, d: Db, root: nat, files: seq<FileEntry>, o: Outcome): set<nat>
  {
    var before, after := LiveOf(db, root), LiveOf(d, root);
    match o
    case Inserted => after - before
    case Updated => Rehashed(db, d, root)
    case Unchanged => Untouched(db, d, root, files)
    case Skipped => {}
  }

  /** Live before and after, with another content hash. */
  function Rehashed(db: Db, d: Db, root: nat): set<nat>
  {
    set i | i in LiveOf(db, root) * LiveOf(d, root) && d.tracks[i].hash != db.tracks[i].hash
  }

  /** Live before and after with the same content hash, and up to date with its file. */
  function Untouched(db: Db, d: Db, root: nat, files: seq<FileEntry>): set<nat>
  {
    set i | i in LiveOf(db, root) * LiveOf(d, root) && d.tracks[i].hash == db.tracks[i].hash && Current(d, i, files)
  }

  ghost function Stale(d: Db, root: nat, files: seq<FileEntry>): set<FileEntry>
  {
    set f | f in files && !UpToDate(d, root, f)
  }

  /** One of the files is the row's, with its size and time. */
  predicate Current(d: Db, i: nat, files: seq<FileEntry>)
    requires i in d.tracks
  {
    exists j :: 0 <= j < |files| && files[j].path == d.tracks[i].path && SameFile(d.tracks[i], files[j])
  }

  /** The tables after the files of a root have been processed and the unseen rows deleted. */
  ghost predicate Reconciled(db: Db, d: Db, root: nat, files: seq<FileEntry>)
  {
    && Sound(db) && Sound(d) && Extends(db, d) && DistinctPaths(files)
    && (forall f | f in files :: Judged(db, d, root, f, Judge(RowAt(db, root, f.path), f)))
    && (forall i | i in d.tracks && d.tracks[i].root == root && d.tracks[i].path !in PathsOf(files) ::
          d.tracks[i].deletedAt.Some?)
  }

  lemma FileIsCounted(db: Db, d: Db, root: nat, files: seq<FileEntry>, o: Outcome, f: FileEntry)
    requires Reconciled(db, d, root, files) && f in OutcomeSet(db, root, files, o) && o != Skipped
    ensures exists i :: i in CountedRows(db, d, root, files, o) && d.tracks[i].path == f.path
  {
    OutcomeFromRows(db, d, root, f, o);
    var i := FindTrack(d.tracks, root, f.path).value;
    RowOfId(db, d, root, f.path, i);
    assert i in d.tracks;
    hide Sound, Judged, Judge, Extends, RowAt;
    assert f in files;
    assert o == Unchanged ==> Current(d, i, files);
    assert i in CountedRows(db, d, root, files, o);
  }

  lemma RowIsCounted(db: Db, d: Db, root: nat, files: seq<FileEntry>, o: Outcome, i: nat)
    requires Reconciled(db, d, root, files) && i in CountedRows(db, d, root, files, o)
    ensures exists f :: f in OutcomeSet(db, root, files, o) && f.path == d.tracks[i].path
  {
    var path := d.tracks[i].path;
    assert path in PathsOf(files);
    var f :| f in files && f.path == path;
    RowOfId(db, d, root, path, i);
    OutcomeFromRows(db, d, root, f, Judge(RowAt(db, root, f.path), f));
    hide Sound, Judged, Judge, Extends, RowAt;
    if o == Unchanged {
      var j :| 0 <= j < |files| && files[j].path == path && SameFile(d.tracks[i], files[j]);
      assert files[j] == f;
    }
    assert f in OutcomeSet(db, root, files, o);
  }

  lemma RowsAreCounted(db: Db, d: Db, root: nat, files: seq<FileEntry>, o: Outcome)
    requires Reconciled(db, d, root, files) && o != Skipped
    ensures |OutcomeSet(db, root, files, o)| == |CountedRows(db, d, root, files, o)|
  {
    SoundUnique(d);
    hide Sound, Judge, Judged, Extends, RowAt;
    forall f | f in OutcomeSet(db, root, files, o)
      ensures exists i :: i in CountedRows(db, d, root, files, o) && d.tracks[i].path == f.path
    {
      FileIsCounted(db, d, root, files, o, f);
    }
    forall i | i in CountedRows(db, d, root, files, o)
      ensures exists f :: f in OutcomeSet(db, root, files, o) && f.path == d.tracks[i].path
    {
      RowIsCounted(db, d, root, files, o, i);
    }
    SameCount(files, OutcomeSet(db, root, files, o), d, root, CountedRows(db, d, root, files, o));
  }

  /** The counters a scan reports, said of the tables before and after: inserted are the rows that have
      become live, updated the live rows with another content hash, unchanged those with the same one that
      have their file's size and time, deleted the rows that are live no more, skipped the files without an
      up-to-date row. */
  lemma ScanCounts(db: Db, root: nat, walk: seq<FileEntry>, now: int)
    requires Sound(db) && root in db.roots && DistinctPaths(Indexed(walk))
    ensures var files := Indexed(walk);
            var (d, r) := Scan(db, root, walk, now);
            var before, after := LiveOf(db, root), LiveOf(d, root);
            && r.inserted == |after - before|
            && r.updated == |Rehashed(db, d, root)| && r.kept == |Untouched(db, d, root, files)|
            && r.deleted == |before - after| && r.skipped == |Stale(d, root, files)|
  {
    hide Sound, Indexed, Scan, Reconciled, OutcomeSet, LiveOf, DistinctPaths, Rehashed, Untouched, Stale;
    var files := Indexed(walk);
    var (d, r) := Scan(db, root, walk, now);
    ScanIsReconciled(db, root, walk, now);
    CountersAreSets(db, root, walk, now);
    RowsAreCounted(db, d, root, files, Inserted);
    RowsAreCounted(db, d, root, files, Updated);
    RowsAreCounted(db, d, root, files, Unchanged);
    SkippedAreStale(db, d, root, files);
    DeletedRows(db, root, walk, now);
  }

  lemma ScanIsReconciled(db: Db, root: nat, walk: seq<FileEntry>, now: int)
    requires Sound(db) && root in db.roots && DistinctPaths(Indexed(walk))
    ensures Reconciled(db, Scan(db, root, walk, now).0, root, Indexed(walk))
  {
    hide Sound, Judge, Judged, RowAt, Extends, Scan, Indexed, DistinctPaths;
    ScanReconciles(db, root, walk, now);
  }

  lemma CountersAreSets(db: Db, root: nat, walk: seq<FileEntry>, now: int)
    requires Sound(db) && root in db.roots && DistinctPaths(Indexed(walk))
    ensures var files, r := Indexed(walk), Scan(db, root, walk, now).1;
            && r.inserted == |OutcomeSet(db, root, files, Inserted)| && r.updated == |OutcomeSet(db, root, files, Updated)|
            && r.kept == |OutcomeSet(db, root, files, Unchanged)| && r.skipped == |OutcomeSet(db, root, files, Skipped)|
  {
    hide Sound, ProcessAll, Judge, RowAt, Indexed, OutcomeSet, Unseen, DeleteAll, Count, DistinctPaths;
    var files := Indexed(walk);
    var os := ProcessAll(db, root, files).1;
    OutcomesAreJudgements(db, root, files);
    CountOutcome(db, root, files, os, Inserted);
    CountOutcome(db, root, files, os, Updated);
    CountOutcome(db, root, files, os, Unchanged);
    CountOutcome(db, root, files, os, Skipped);
  }

  lemma SkippedAreStale(db: Db, d: Db, root: nat, files: seq<FileEntry>)
    requires Reconciled(db, d, root, files)
    ensures OutcomeSet(db, root, files, Skipped) == Stale(d, root, files)
  {
    hide Sound, Judge, Judged, RowAt, Extends, UpToDate;
    forall f | f in files ensures Judge(RowAt(db, root, f.path), f) == Skipped <==> !UpToDate(d, root, f) {
      OutcomeFromRows(db, d, root, f, Judge(RowAt(db, root, f.path), f));
    }
  }

  lemma DeletedRows(db: Db, root: nat, walk: seq<FileEntry>, now: int)
    requires Sound(db) && root in db.roots && DistinctPaths(Indexed(walk))
    ensures var (d, r) := Scan(db, root, walk, now);
            r.deleted == |LiveOf(db, root) - LiveOf(d, root)|
  {
    hide Sound, Scan, Indexed;
    var d := Scan(db, root, walk, now).0;
    ScanDeletes(db, root, walk, now);
    forall i | i in LiveOf(db, root) ensures i in LiveOf(d, root) <==> i !in Unseen(db, root, PathsOf(Indexed(walk))) {
      SurvivesIfSeen(db, root, walk, i, now);
      LiveKeepsRoot(db, root, walk, i, now);
    }
    assert LiveOf(db, root) - LiveOf(d, root) == Unseen(db, root, PathsOf(Indexed(walk)));
  }

  lemma LiveKeepsRoot(db: Db, root: nat, walk: seq<FileEntry>, i: nat, now: int)
    requires Sound(db) && root in db.roots && DistinctPaths(Indexed(walk)) && i in db.tracks
    ensures var d := Scan(db, root, walk, now).0; i in d.tracks && d.tracks[i].root == db.tracks[i].root
  {
    hide Scan, Indexed, Sound;
    ScanReconciles(db, root, walk, now);
  }

  // ---------------------------------------------------------------------------------------------
  // Scanning again
  // ---------------------------------------------------------------------------------------------

  /** Files whose rows are all left as they are change nothing and are never counted as inserted or updated. */
  lemma {:induction false} ProcessNothing(db: Db, root: nat, files: seq<FileEntry>)
    requires forall f | f in files :: LeavesRow(RowAt(db, root, f.path), f)
    ensures var (e, os) := ProcessAll(db, root, files);
            && e == db && |os| == |files| && Count(os, Inserted) == 0 && Count(os, Updated) == 0
            && forall j | 0 <= j < |files| :: os[j] == Judge(RowAt(db, root, files[j].path), files[j])
    decreases |files|
  {
    if files != [] {
      hide RowAt;
      ProcessNothing(db, root, files[1..]);
      assert files[0] in files;
    }
  }

  /** A settled file is left alone by the next scan; so is one that was skipped. */
  lemma JudgedAgain(db: Db, d: Db, root: nat, f: FileEntry)
    requires Judged(db, d, root, f, Judge(RowAt(db, root, f.path), f))
    ensures LeavesRow(RowAt(d, root, f.path), f)
    ensures Judge(RowAt(d, root, f.path), f) == Skipped <==> Judge(RowAt(db, root, f.path), f) == Skipped
  {
  }

  /** Scanning the same files again, in whatever order the second walk meets them, writes nothing: no
      insert, update or deletion, everything that was not skipped is unchanged, and the same number
      is skipped. */
  lemma ScanIdempotent(db: Db, root: nat, walk: seq<FileEntry>, again: seq<FileEntry>, now: int, later: int)
    requires Sound(db) && root in db.roots
    requires DistinctPaths(Indexed(walk)) && DistinctPaths(Indexed(again))
    requires FileSet(Indexed(again)) == FileSet(Indexed(walk))
    ensures var (d, r) := Scan(db, root, walk, now);
            var (d2, r2) := Scan(d, root, again, later);
            && d2 == d
            && r2.inserted == 0 && r2.updated == 0 && r2.deleted == 0
            && r2.kept == r.inserted + r.updated + r.kept && r2.skipped == r.skipped
  {
    hide Sound, Judge, RowAt, ProcessAll, Indexed, Judged, LeavesRow, Extends, OutcomeSet;
    var files, files2 := Indexed(walk), Indexed(again);
    var (d, r) := Scan(db, root, walk, now);
    ScanReconciles(db, root, walk, now);
    forall f | f in files2 ensures LeavesRow(RowAt(d, root, f.path), f) {
      assert f in FileSet(files2);
      JudgedAgain(db, d, root, f);
    }
    ProcessNothing(d, root, files2);
    var (e2, os2) := ProcessAll(d, root, files2);
    assert PathsOf(files2) == PathsOf(files) by { SamePaths(files, files2); }
    assert Unseen(d, root, PathsOf(files2)) == {};
    assert DeleteAll(d, {}, later) == d;
    var (e, os) := ProcessAll(db, root, files);
    ProcessAllOk(db, root, files);
    OutcomesAreJudgements(db, root, files);
    CountOutcome(db, root, files, os, Skipped);
    CountOutcome(d, root, files2, os2, Skipped);
    CountFiles(files);
    CountFiles(files2);
    assert OutcomeSet(d, root, files2, Skipped) == OutcomeSet(db, root, files, Skipped) by {
      SameSkipped(db, d, root, files, files2);
    }
    CountsAddUp(os2);
  }

  lemma SamePaths(files: seq<FileEntry>, files2: seq<FileEntry>)
    requires FileSet(files) == FileSet(files2)
    ensures PathsOf(files) == PathsOf(files2)
  {
    assert forall f :: f in files <==> f in FileSet(files);
    assert forall f :: f in files2 <==> f in FileSet(files2);
  }

  lemma SameSkipped(db: Db, d: Db, root: nat, files: seq<FileEntry>, files2: seq<FileEntry>)
    requires FileSet(files) == FileSet(files2)
    requires forall f | f in files :: Judged(db, d, root, f, Judge(RowAt(db, root, f.path), f))
    ensures OutcomeSet(d, root, files2, Skipped) == OutcomeSet(db, root, files, Skipped)
  {
    hide Judge, RowAt, Judged;
    assert forall f :: f in files <==> f in FileSet(files);
    assert forall f :: f in files2 <==> f in FileSet(files2);
    forall f | f in files
      ensures Judge(RowAt(d, root, f.path), f) == Skipped <==> Judge(RowAt(db, root, f.path), f) == Skipped
    {
      JudgedAgain(db, d, root, f);
    }
  }

  lemma {:induction false} IndexedSplits(a: seq<FileEntry>, b: seq<FileEntry>)
    ensures Indexed(a + b) == Indexed(a) + Indexed(b)
    decreases |a|
  {
    if a == [] {
      assert a + b == b;
    } else {
      IndexedSplits(a[1..], b);
      assert (a + b)[1..] == a[1..] + b;
    }
  }

  /** A live row of the root survives a scan if and only if its file was seen, readable or not. */
  lemma SurvivesIfSeen(db: Db, root: nat, walk: seq<FileEntry>, i: nat, now: int)
    requires Sound(db) && root in db.roots && DistinctPaths(Indexed(walk))
    requires i in db.tracks && db.tracks[i].root == root && db.tracks[i].deletedAt.None?
    ensures var d := Scan(db, root, walk, now).0;
            i in d.tracks && (d.tracks[i].deletedAt.None? <==> db.tracks[i].path in PathsOf(Indexed(walk)))
  {
    ScanReconciles(db, root, walk, now);
    var d, path := Scan(db, root, walk, now).0, db.tracks[i].path;
    hide Scan, Indexed;
    if path in PathsOf(Indexed(walk)) {
      var f :| f in Indexed(walk) && f.path == path;
      assert Judged(db, d, root, f, Judge(RowAt(db, root, path), f));
      SoundUnique(db);
      SoundUnique(d);
      hide Sound, Judge;
      RowAtUnique(db, root, path, i);
      RowAtUnique(d, root, path, i);
    }
  }

  /** A walk that stops on an error after `n` entries still runs deletion detection. Of the tracks whose
      files are there, all of which a complete walk keeps, it deletes exactly those whose files lie beyond
      the point where it stopped. */
  lemma AbortedWalkDeletes(db: Db, root: nat, walk: seq<FileEntry>, n: nat, i: nat, now: int)
    requires Sound(db) && root in db.roots && n <= |walk| && DistinctPaths(Indexed(walk))
    requires i in db.tracks && db.tracks[i].root == root && db.tracks[i].deletedAt.None?
    requires db.tracks[i].path in PathsOf(Indexed(walk))
    ensures var complete, aborted := Scan(db, root, walk, now).0, Scan(db, root, walk[..n], now).0;
            && i in complete.tracks && complete.tracks[i].deletedAt.None?
            && i in aborted.tracks
            && (aborted.tracks[i].deletedAt.Some? <==> db.tracks[i].path in PathsOf(Indexed(walk[n..])))
  {
    hide Sound, Scan, Indexed;
    assert walk == walk[..n] + walk[n..];
    IndexedSplits(walk[..n], walk[n..]);
    PrefixDistinct(Indexed(walk[..n]), Indexed(walk[n..]));
    SurvivesIfSeen(db, root, walk, i, now);
    SurvivesIfSeen(db, root, walk[..n], i, now);
  }

  /** The paths of two parts of a walk that meets each file once. */
  lemma PrefixDistinct(a: seq<FileEntry>, b: seq<FileEntry>)
    requires DistinctPaths(a + b)
    ensures DistinctPaths(a) && PathsOf(a + b) == PathsOf(a) + PathsOf(b) && PathsOf(a) !! PathsOf(b)
  {
    var s := a + b;
    forall i, j | 0 <= i < |a| && 0 <= j < |b| ensures a[i].path != b[j].path {
      assert s[i] == a[i] && s[|a| + j] == b[j];
    }
    assert forall i | 0 <= i < |a| :: s[i] == a[i];
  }
}
