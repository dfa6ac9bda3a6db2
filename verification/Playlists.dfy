/** Playlists: the membership table, ordered by position with gaps, refines one sequence per playlist. */
module Playlists {
  import opened Common
  import opened Database

  // ---------------------------------------------------------------------------------------------
  // Ordered listings
  // ---------------------------------------------------------------------------------------------

  predicate DistinctValues(m: map<nat, int>)
  {
    forall a, b | a in m && b in m && a != b :: m[a] != m[b]
  }

  /** `s` lists the keys of `m` once each, by increasing position: its first is the least, the rest
      lists the others. */
  predicate IsListing(m: map<nat, int>, s: seq<nat>)
    decreases |s|
  {
    if s == [] then m == map[]
    else
      && s[0] in m
      && (forall u | u in m && u != s[0] :: m[s[0]] < m[u])
      && IsListing(m - {s[0]}, s[1..])
  }

  lemma {:induction false} HasMin(m: map<nat, int>, keys: set<nat>) returns (t: nat)
    requires keys != {} && keys <= m.Keys
    ensures t in keys && forall u | u in keys :: m[t] <= m[u]
    decreases keys
  {
    var x :| x in keys;
    if keys == {x} {
      t := x;
    } else {
      var y := HasMin(m, keys - {x});
      t := if m[x] < m[y] then x else y;
      assert forall u | u in keys :: u == x || u in keys - {x};
    }
  }

  lemma HasMinExists(m: map<nat, int>)
    requires m != map[]
    ensures exists t :: t in m && forall u | u in m :: m[t] <= m[u]
  {
    assert m.Keys != {};
    var t := HasMin(m, m.Keys);
  }

  /** ORDER BY position. */
  ghost function Listing(m: map<nat, int>): seq<nat>
    decreases |m|
  {
    if m == map[] then []
    else
      HasMinExists(m);
      var t :| t in m && forall u | u in m :: m[t] <= m[u];
      [t] + Listing(m - {t})
  }

  lemma {:induction false} ListingIsListing(m: map<nat, int>)
    requires DistinctValues(m)
    ensures IsListing(m, Listing(m))
    decreases |m|
  {
    if m != map[] {
      var t := Listing(m)[0];
      assert Listing(m)[1..] == Listing(m - {t});
      ListingIsListing(m - {t});
    }
  }

  /** A listing lists exactly the keys, in strictly increasing order of position. */
  lemma {:induction false} ListingMeaning(m: map<nat, int>, s: seq<nat>)
    requires IsListing(m, s)
    ensures forall t :: t in s <==> t in m
    ensures forall i, j | 0 <= i < j < |s| :: m[s[i]] < m[s[j]]
    decreases |s|
  {
    if s != [] {
      ListingMeaning(m - {s[0]}, s[1..]);
      assert forall t :: t in s <==> t == s[0] || t in s[1..];
      assert forall i | 0 < i < |s| :: s[i] == s[1..][i - 1] && s[i] in s[1..];
    }
  }

  /** With distinct positions there is one listing only. */
  lemma {:induction false} ListingUnique(m: map<nat, int>, s: seq<nat>, u: seq<nat>)
    requires IsListing(m, s) && IsListing(m, u)
    ensures s == u
    decreases |s|
  {
    if s != [] && u != [] {
      assert s[0] == u[0];
      ListingUnique(m - {s[0]}, s[1..], u[1..]);
      assert s == [s[0]] + s[1..] && u == [u[0]] + u[1..];
    }
  }

  function Without(s: seq<nat>, t: nat): seq<nat>
  {
    if s == [] then [] else (if s[0] == t then [] else [s[0]]) + Without(s[1..], t)
  }

  lemma {:induction false} WithoutListing(m: map<nat, int>, s: seq<nat>, t: nat)
    requires IsListing(m, s)
    ensures IsListing(m - {t}, Without(s, t))
    decreases |s|
  {
    if s == [] {
      assert m - {t} == map[];
    } else {
      WithoutListing(m - {s[0]}, s[1..], t);
      var rest := Without(s[1..], t);
      if s[0] == t {
        assert (m - {t}) - {t} == m - {t} && [] + rest == rest;
      } else {
        assert (m - {s[0]}) - {t} == (m - {t}) - {s[0]};
        assert ([s[0]] + rest)[1..] == rest;
      }
    }
  }

  /** `COALESCE(MAX(position) + 1, 0)`. */
  ghost predicate IsNextPosition(m: map<nat, int>, p: int)
  {
    if m == map[] then p == 0
    else (exists t :: t in m && p == m[t] + 1) && forall u | u in m :: m[u] < p
  }

  lemma {:induction false} AppendListing(m: map<nat, int>, s: seq<nat>, t: nat, p: int)
    requires IsListing(m, s) && t !in m && forall u | u in m :: m[u] < p
    ensures IsListing(m[t := p], s + [t])
    decreases |s|
  {
    if s == [] {
      assert [t][1..] == [] && m[t := p] - {t} == map[];
    } else {
      AppendListing(m - {s[0]}, s[1..], t, p);
      assert (m - {s[0]})[t := p] == m[t := p] - {s[0]};
      assert (s + [t])[1..] == s[1..] + [t];
    }
  }

  // ---------------------------------------------------------------------------------------------
  // The repository operations
  // ---------------------------------------------------------------------------------------------

  function Positions(entries: map<(nat, nat), int>, playlist: nat): map<nat, int>
  {
    map e | e in entries && e.0 == playlist :: e.1 := entries[e]
  }

  lemma PositionsPut(entries: map<(nat, nat), int>, playlist: nat, track: nat, p: int, q: nat)
    ensures Positions(entries[(playlist, track) := p], q) ==
            if q == playlist then Positions(entries, q)[track := p] else Positions(entries, q)
  {
  }

  lemma PositionsDrop(entries: map<(nat, nat), int>, playlist: nat, track: nat, q: nat)
    ensures Positions(entries - {(playlist, track)}, q) ==
            if q == playlist then Positions(entries, q) - {track} else Positions(entries, q)
  {
  }

  lemma PositionsMember(entries: map<(nat, nat), int>, playlist: nat, track: nat)
    ensures track in Positions(entries, playlist) <==> (playlist, track) in entries
    ensures (playlist, track) in entries ==> Positions(entries, playlist)[track] == entries[(playlist, track)]
  {
  }

  lemma HasMaxPosition(m: map<nat, int>) returns (t: nat)
    requires m != map[]
    ensures t in m && forall u | u in m :: m[u] <= m[t]
  {
    assert m.Keys != {};
    var negated: map<nat, int> := map u | u in m :: -m[u];
    t := HasMin(negated, m.Keys);
    assert forall u | u in m :: negated[t] <= negated[u];
  }

  ghost function NextPosition(m: map<nat, int>): (p: int)
    ensures IsNextPosition(m, p)
  {
    if m == map[] then 0
    else
      assert exists p :: IsNextPosition(m, p) by { var t := HasMaxPosition(m); assert IsNextPosition(m, m[t] + 1); }
      var p :| IsNextPosition(m, p);
      p
  }

  function Touch(db: Db, playlist: nat, now: int): map<nat, Playlist>
    requires playlist in db.playlists
  {
    db.playlists[playlist := db.playlists[playlist].(updatedAt := ToEpochMillis(now))]
  }

  function CreatePlaylist(db: Db, name: string, now: int): (Db, nat)
  {
    var id := NextId(db.playlists.Keys);
    (db.(playlists := db.playlists[id := Playlist(name, ToEpochMillis(now), ToEpochMillis(now))]), id)
  }

  /** Deleting a playlist takes its membership rows with it (ON DELETE CASCADE). */
  function RemovePlaylist(db: Db, playlist: nat): (Db, bool)
  {
    if playlist !in db.playlists then (db, false)
    else (db.(playlists := db.playlists - {playlist},
              entries := map e | e in db.entries && e.0 != playlist :: db.entries[e]), true)
  }

  ghost function AddTrack(db: Db, playlist: nat, track: nat, now: int): (Db, bool)
  {
    if playlist !in db.playlists || track !in db.tracks then (db, false)
    else if (playlist, track) in db.entries then (db, true)
    else
      (db.(entries := db.entries[(playlist, track) := NextPosition(Positions(db.entries, playlist))],
           playlists := Touch(db, playlist, now)), true)
  }

  function RemoveTrack(db: Db, playlist: nat, track: nat, now: int): (Db, bool)
  {
    if (playlist, track) !in db.entries then (db, false)
    else (db.(entries := db.entries - {(playlist, track)},
              playlists := if playlist in db.playlists then Touch(db, playlist, now) else db.playlists), true)
  }

  /** The track ids of a playlist, as `tracks` returns them. Deleted tracks stay listed. */
  ghost function TracksOf(db: Db, playlist: nat): seq<nat>
  {
    Listing(Positions(db.entries, playlist))
  }

  /** The id of a deleted playlist is given out again by the next `create` if and only if it is one above
      the largest id left, or 1 when none is left. */
  lemma DeletedIdReturns(db: Db, playlist: nat, name: string, now: int)
    requires playlist in db.playlists
    ensures var left := db.playlists.Keys - {playlist};
            CreatePlaylist(RemovePlaylist(db, playlist).0, name, now).1 == playlist <==>
            if left == {} then playlist == 1 else playlist - 1 in left && forall other | other in left :: other < playlist
  {
    assert RemovePlaylist(db, playlist).0.playlists.Keys == db.playlists.Keys - {playlist};
  }

  // ---------------------------------------------------------------------------------------------
  // Refinement
  // ---------------------------------------------------------------------------------------------

  datatype Op =
    | Create(name: string, now: int)
    | Remove(playlist: nat)
    | Add(playlist: nat, track: nat, now: int)
    | Take(playlist: nat, track: nat, now: int)

  ghost function Apply(db: Db, op: Op): Db
  {
    match op
    case Create(name, now) => CreatePlaylist(db, name, now).0
    case Remove(playlist) => RemovePlaylist(db, playlist).0
    case Add(playlist, track, now) => AddTrack(db, playlist, track, now).0
    case Take(playlist, track, now) => RemoveTrack(db, playlist, track, now).0
  }

  /** The abstract state: one sequence of track ids per playlist. */
  type Lists = map<nat, seq<nat>>

  /** On sequences: create an empty list, drop a list, append iff absent, filter out. */
  function ApplyToLists(lists: Lists, tracks: set<nat>, op: Op): Lists
  {
    match op
    case Create(_, _) => lists[NextId(lists.Keys) := []]
    case Remove(playlist) => lists - {playlist}
    case Add(playlist, track, _) =>
      if playlist in lists && track in tracks && track !in lists[playlist]
      then lists[playlist := lists[playlist] + [track]] else lists
    case Take(playlist, track, _) =>
      if playlist in lists then lists[playlist := Without(lists[playlist], track)] else lists
  }

  ghost function ListsOf(db: Db): Lists
  {
    map p | p in db.playlists :: TracksOf(db, p)
  }

  predicate SoundLists(db: Db)
  {
    EntriesResolve(db) && DistinctPositions(db.entries)
  }

  lemma PositionsDistinct(db: Db, playlist: nat)
    requires SoundLists(db)
    ensures DistinctValues(Positions(db.entries, playlist))
    ensures IsListing(Positions(db.entries, playlist), TracksOf(db, playlist))
  {
    var m := Positions(db.entries, playlist);
    forall a, b | a in m && b in m && a != b ensures m[a] != m[b] {
      assert (playlist, a) in db.entries && (playlist, b) in db.entries;
      assert m[a] == db.entries[(playlist, a)] && m[b] == db.entries[(playlist, b)];
    }
    ListingIsListing(m);
  }

  lemma AddKeepsSound(db: Db, playlist: nat, track: nat, now: int)
    requires SoundLists(db)
    ensures SoundLists(AddTrack(db, playlist, track, now).0)
  {
    var d := AddTrack(db, playlist, track, now).0;
    var m := Positions(db.entries, playlist);
    if d != db {
      var p := NextPosition(m);
      forall e | e in db.entries && e.0 == playlist ensures db.entries[e] != p {
        assert e.1 in m && m[e.1] == db.entries[e];
      }
    }
  }

  lemma AddListing(db: Db, playlist: nat, track: nat, now: int)
    requires SoundLists(db) && playlist in db.playlists && track in db.tracks && (playlist, track) !in db.entries
    ensures var d := AddTrack(db, playlist, track, now).0;
            TracksOf(d, playlist) == TracksOf(db, playlist) + [track]
  {
    hide Listing, IsListing, SoundLists, Positions, NextPosition;
    var d := AddTrack(db, playlist, track, now).0;
    var m := Positions(db.entries, playlist);
    var p := NextPosition(m);
    AddKeepsSound(db, playlist, track, now);
    PositionsDistinct(db, playlist);
    PositionsDistinct(d, playlist);
    PositionsMember(db.entries, playlist, track);
    AppendListing(m, TracksOf(db, playlist), track, p);
    PositionsPut(db.entries, playlist, track, p, playlist);
    ListingUnique(m[track := p], TracksOf(d, playlist), TracksOf(db, playlist) + [track]);
  }

  lemma AddLeavesOthers(db: Db, playlist: nat, track: nat, now: int, other: nat)
    requires other != playlist
    ensures TracksOf(AddTrack(db, playlist, track, now).0, other) == TracksOf(db, other)
  {
    hide Listing, IsListing, NextPosition;
    PositionsPut(db.entries, playlist, track, NextPosition(Positions(db.entries, playlist)), other);
  }

  lemma TakeKeepsSound(db: Db, playlist: nat, track: nat, now: int)
    requires SoundLists(db)
    ensures SoundLists(RemoveTrack(db, playlist, track, now).0)
  {
  }

  lemma TakeListing(db: Db, playlist: nat, track: nat, now: int)
    requires SoundLists(db)
    ensures var d := RemoveTrack(db, playlist, track, now).0;
            TracksOf(d, playlist) == Without(TracksOf(db, playlist), track)
  {
    hide Listing, IsListing, SoundLists, Positions;
    var d := RemoveTrack(db, playlist, track, now).0;
    var m := Positions(db.entries, playlist);
    TakeKeepsSound(db, playlist, track, now);
    PositionsDistinct(db, playlist);
    PositionsDistinct(d, playlist);
    WithoutListing(m, TracksOf(db, playlist), track);
    PositionsDrop(db.entries, playlist, track, playlist);
    PositionsMember(db.entries, playlist, track);
    assert Positions(d.entries, playlist) == m - {track};
    ListingUnique(m - {track}, TracksOf(d, playlist), Without(TracksOf(db, playlist), track));
  }

  lemma TakeLeavesOthers(db: Db, playlist: nat, track: nat, now: int, other: nat)
    requires other != playlist
    ensures TracksOf(RemoveTrack(db, playlist, track, now).0, other) == TracksOf(db, other)
  {
    hide Listing, IsListing;
    PositionsDrop(db.entries, playlist, track, other);
  }

  /** A playlist id that is not in use has no entries, so a reused id starts empty. */
  lemma FreshIsEmpty(db: Db, playlist: nat)
    requires SoundLists(db) && playlist !in db.playlists
    ensures TracksOf(db, playlist) == []
  {
    assert Positions(db.entries, playlist) == map[];
  }

  lemma MembershipIsListed(db: Db, playlist: nat, track: nat)
    requires SoundLists(db)
    ensures track in TracksOf(db, playlist) <==> (playlist, track) in db.entries
  {
    hide Listing, IsListing;
    PositionsDistinct(db, playlist);
    ListingMeaning(Positions(db.entries, playlist), TracksOf(db, playlist));
    assert track in Positions(db.entries, playlist) <==> (playlist, track) in db.entries;
  }

  lemma {:induction false} WithoutAbsent(s: seq<nat>, t: nat)
    requires t !in s
    ensures Without(s, t) == s
    decreases |s|
  {
    if s != [] {
      WithoutAbsent(s[1..], t);
    }
  }

  lemma CreateRefines(db: Db, name: string, now: int)
    requires SoundLists(db)
    ensures var d := CreatePlaylist(db, name, now).0;
            SoundLists(d) && ListsOf(d) == ListsOf(db)[NextId(db.playlists.Keys) := []]
  {
    hide Listing, Positions;
    FreshIsEmpty(db, NextId(db.playlists.Keys));
  }

  lemma RemoveRefines(db: Db, playlist: nat)
    requires SoundLists(db)
    ensures var d := RemovePlaylist(db, playlist).0;
            SoundLists(d) && ListsOf(d) == ListsOf(db) - {playlist}
  {
    hide Listing, Positions, TracksOf;
    var d := RemovePlaylist(db, playlist).0;
    forall q | q in d.playlists ensures TracksOf(d, q) == TracksOf(db, q) {
      RemovedOthers(db, playlist, q);
    }
  }

  lemma AddRefines(db: Db, playlist: nat, track: nat, now: int)
    requires SoundLists(db)
    ensures var d := AddTrack(db, playlist, track, now).0;
            && SoundLists(d)
            && ListsOf(d) == ApplyToLists(ListsOf(db), db.tracks.Keys, Add(playlist, track, now))
            && AddTrack(db, playlist, track, now).1 == (playlist in ListsOf(db) && track in db.tracks)
  {
    hide TracksOf, SoundLists, NextPosition, ListsOf;
    ListsAt(db, playlist);
    MembershipIsListed(db, playlist, track);
    AddKeepsSound(db, playlist, track, now);
    if playlist in db.playlists && track in db.tracks && (playlist, track) !in db.entries {
      AddListing(db, playlist, track, now);
      forall q | q != playlist ensures TracksOf(AddTrack(db, playlist, track, now).0, q) == TracksOf(db, q) {
        AddLeavesOthers(db, playlist, track, now, q);
      }
      ListsDiffer(db, AddTrack(db, playlist, track, now).0, playlist);
    }
  }

  lemma TakenPlaylist(db: Db, playlist: nat, track: nat, now: int)
    requires SoundLists(db)
    ensures (playlist, track) in db.entries ==> playlist in db.playlists
    ensures RemoveTrack(db, playlist, track, now).0.playlists.Keys == db.playlists.Keys
    ensures RemoveTrack(db, playlist, track, now).1 == ((playlist, track) in db.entries)
    ensures (playlist, track) !in db.entries ==> RemoveTrack(db, playlist, track, now).0 == db
  {
  }

  /** When only one playlist's listing changes, only its sequence does. */
  lemma ListsDiffer(db: Db, d: Db, playlist: nat)
    requires d.playlists.Keys == db.playlists.Keys
    requires forall q | q != playlist :: TracksOf(d, q) == TracksOf(db, q)
    ensures ListsOf(d) ==
            if playlist in db.playlists then ListsOf(db)[playlist := TracksOf(d, playlist)] else ListsOf(db)
  {
    hide TracksOf;
  }

  lemma ListsAt(db: Db, playlist: nat)
    ensures playlist in ListsOf(db) <==> playlist in db.playlists
    ensures playlist in db.playlists ==> ListsOf(db)[playlist] == TracksOf(db, playlist)
  {
    hide TracksOf;
  }

  lemma TakeRefines(db: Db, playlist: nat, track: nat, now: int)
    requires SoundLists(db)
    ensures var d := RemoveTrack(db, playlist, track, now).0;
            && SoundLists(d)
            && ListsOf(d) == ApplyToLists(ListsOf(db), db.tracks.Keys, Take(playlist, track, now))
            && RemoveTrack(db, playlist, track, now).1 ==
               (playlist in ListsOf(db) && track in ListsOf(db)[playlist])
  {
    hide TracksOf, SoundLists, Without, RemoveTrack, ListsOf;
    ListsAt(db, playlist);
    TakenPlaylist(db, playlist, track, now);
    TakeKeepsSound(db, playlist, track, now);
    TakeListing(db, playlist, track, now);
    MembershipIsListed(db, playlist, track);
    forall q | q != playlist ensures TracksOf(RemoveTrack(db, playlist, track, now).0, q) == TracksOf(db, q) {
      TakeLeavesOthers(db, playlist, track, now, q);
    }
    ListsDiffer(db, RemoveTrack(db, playlist, track, now).0, playlist);
  }

  /** Every operation on the tables is the operation on sequences. */
  lemma StepRefines(db: Db, op: Op)
    requires SoundLists(db)
    ensures var d := Apply(db, op);
            SoundLists(d) && ListsOf(d) == ApplyToLists(ListsOf(db), db.tracks.Keys, op) && d.tracks == db.tracks
  {
    hide SoundLists, TracksOf, NextPosition;
    assert ListsOf(db).Keys == db.playlists.Keys;
    match op
    case Create(name, now) => CreateRefines(db, name, now);
    case Remove(playlist) => RemoveRefines(db, playlist);
    case Add(playlist, track, now) => AddRefines(db, playlist, track, now);
    case Take(playlist, track, now) => TakeRefines(db, playlist, track, now);
  }

  function RowFor(db: Db, playlist: nat): Option<Playlist>
  {
    if playlist in db.playlists then Some(db.playlists[playlist]) else None
  }

  /** What an operation does to the row of any playlist: a new one has its name and the time twice; adding a
      track that is new to the listing, or taking one out of it, sets the time of the last change; anything
      else leaves the row alone. */
  lemma PlaylistRows(db: Db, op: Op, playlist: nat)
    requires SoundLists(db)
    ensures var before, after := RowFor(db, playlist), RowFor(Apply(db, op), playlist);
            match op
            case Create(name, now) =>
              var ms := ToEpochMillis(now);
              after == if playlist == CreatePlaylist(db, name, now).1 then Some(Playlist(name, ms, ms)) else before
            case Remove(p) => after == if playlist == p then None else before
            case Add(p, track, now) =>
              after == if playlist == p && before.Some? && track in db.tracks && track !in TracksOf(db, p)
                       then Some(before.value.(updatedAt := ToEpochMillis(now))) else before
            case Take(p, track, now) =>
              after == if playlist == p && track in TracksOf(db, p)
                       then Some(before.value.(updatedAt := ToEpochMillis(now))) else before
  {
    hide TracksOf, NextPosition, Positions, DistinctPositions, ToEpochMillis;
    match op
    case Add(p, track, _) => MembershipIsListed(db, p, track);
    case Take(p, track, _) => MembershipIsListed(db, p, track);
    case _ =>
  }

  lemma RemovedOthers(db: Db, playlist: nat, q: nat)
    requires q != playlist
    ensures TracksOf(RemovePlaylist(db, playlist).0, q) == TracksOf(db, q)
  {
    hide Listing;
    var d := RemovePlaylist(db, playlist).0;
    assert Positions(d.entries, q) == Positions(db.entries, q);
  }

  ghost function ApplyAll(db: Db, ops: seq<Op>): Db
    decreases |ops|
  {
    if ops == [] then db else ApplyAll(Apply(db, ops[0]), ops[1..])
  }

  function ApplyAllToLists(lists: Lists, tracks: set<nat>, ops: seq<Op>): Lists
    decreases |ops|
  {
    if ops == [] then lists else ApplyAllToLists(ApplyToLists(lists, tracks, ops[0]), tracks, ops[1..])
  }

  /** Over any sequence of operations the tables behave as one sequence per playlist, gaps and reused
      playlist ids notwithstanding. */
  lemma {:induction false} PlaylistsRefineSequences(db: Db, ops: seq<Op>)
    requires SoundLists(db)
    ensures SoundLists(ApplyAll(db, ops))
    ensures ListsOf(ApplyAll(db, ops)) == ApplyAllToLists(ListsOf(db), db.tracks.Keys, ops)
    decreases |ops|
  {
    if ops != [] {
      hide Apply, ApplyToLists, ListsOf, SoundLists;
      StepRefines(db, ops[0]);
      PlaylistsRefineSequences(Apply(db, ops[0]), ops[1..]);
    }
  }
}
