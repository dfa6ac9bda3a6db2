/** The Up Next list: the queue without the playing track, and what dragging its rows does. */
module UpNext {
  import opened Common
  import opened P = Player

  datatype Entry = Entry(offset: nat, track: Track)

  /** The rows from `offset` on: every queue element but the current one, tagged with its offset. */
  function EntriesFrom(q: seq<Track>, current: Option<nat>, offset: nat): seq<Entry>
    requires offset <= |q|
    decreases |q| - offset
  {
    if offset == |q| then []
    else (if current == Some(offset) then [] else [Entry(offset, q[offset])]) + EntriesFrom(q, current, offset + 1)
  }

  function Entries(p: Player): seq<Entry>
  {
    EntriesFrom(p.queue, p.currentIndex, 0)
  }

  function Tracks(rows: seq<Entry>): (r: seq<Track>)
    ensures |r| == |rows| && forall i | 0 <= i < |r| :: r[i] == rows[i].track
  {
    seq(|rows|, i requires 0 <= i < |rows| => rows[i].track)
  }

  function Rows(p: Player): seq<Track> { Tracks(Entries(p)) }

  function MappedSource(rows: seq<Entry>, source: set<nat>): set<nat>
    requires forall i | i in source :: i < |rows|
  {
    set i | i in source :: rows[i].offset
  }

  function MappedDestination(p: Player, rows: seq<Entry>, destination: nat): nat
  {
    if destination < |rows| then rows[destination].offset else |p.queue|
  }

  /** What the list view may hand to `onMove`: rows it shows, and a gap between them. */
  predicate CanDrag(p: Player, source: set<nat>, destination: nat)
  {
    destination <= |Entries(p)| && forall i | i in source :: i < |Entries(p)|
  }

  /** `onMove`: both arguments mapped into the full queue, then `moveQueueItems`. */
  function OnMove(p: Player, source: set<nat>, destination: nat, shuffled: seq<nat>): Player
    requires CanDrag(p, source, destination) && MappedDestination(p, Entries(p), destination) <= |p.queue|
  {
    MoveQueueItems(p, MappedSource(Entries(p), source), MappedDestination(p, Entries(p), destination), shuffled)
  }

  /** The queue offset of row `i` when the track at `current` is left out. */
  function OffsetOf(current: nat, i: nat): nat
  {
    if i < current then i else i + 1
  }

  function Without<T>(s: seq<T>, i: nat): (r: seq<T>)
    requires i < |s|
    ensures |r| == |s| - 1
  {
    s[..i] + s[i + 1..]
  }

  // ---------------------------------------------------------------------------------------------
  // The rows
  // ---------------------------------------------------------------------------------------------

  lemma {:induction false} EntriesPastCurrent(q: seq<Track>, current: Option<nat>, offset: nat)
    requires offset <= |q| && (current.Some? ==> current.value < offset)
    ensures |EntriesFrom(q, current, offset)| == |q| - offset
    ensures forall i: nat | i < |q| - offset :: EntriesFrom(q, current, offset)[i] == Entry(offset + i, q[offset + i])
    decreases |q| - offset
  {
    if offset < |q| {
      EntriesPastCurrent(q, current, offset + 1);
    }
  }

  lemma {:induction false} EntriesUpToCurrent(q: seq<Track>, current: nat, offset: nat)
    requires offset <= current < |q|
    ensures |EntriesFrom(q, Some(current), offset)| == |q| - offset - 1
    ensures forall i: nat | i < |q| - offset - 1 ::
              EntriesFrom(q, Some(current), offset)[i] ==
              var at := OffsetOf(current, offset + i); Entry(at, q[at])
    decreases current - offset
  {
    if offset < current {
      EntriesUpToCurrent(q, current, offset + 1);
    } else {
      EntriesPastCurrent(q, Some(current), offset + 1);
    }
  }

  /** Row `i` is tagged with the offset it has in the queue, which skips the playing track. */
  lemma RowsAreTheRest(p: Player)
    requires p.currentIndex.Some? && p.currentIndex.value < |p.queue|
    ensures Rows(p) == Without(p.queue, p.currentIndex.value) && |Entries(p)| == |p.queue| - 1
    ensures forall i: nat | i < |Entries(p)| :: Entries(p)[i].offset == OffsetOf(p.currentIndex.value, i)
    ensures forall destination: nat | destination <= |Entries(p)| ::
              MappedDestination(p, Entries(p), destination) == OffsetOf(p.currentIndex.value, destination)
  {
    EntriesUpToCurrent(p.queue, p.currentIndex.value, 0);
  }

  // ---------------------------------------------------------------------------------------------
  // Moving
  // ---------------------------------------------------------------------------------------------

  /** `mapped` is `source` with row numbers turned into queue offsets. */
  ghost predicate Maps(source: set<nat>, current: nat, mapped: set<nat>)
  {
    && current !in mapped
    && (forall i: nat :: OffsetOf(current, i) in mapped <==> i in source)
  }

  lemma {:induction false} SelectBelow<T>(q: seq<T>, current: nat, source: set<nat>, mapped: set<nat>, wanted: bool,
                                          lo: nat, hi: nat)
    requires lo <= hi <= current < |q| && Maps(source, current, mapped)
    ensures Select(q, mapped, wanted, lo, hi) == Select(Without(q, current), source, wanted, lo, hi)
    decreases hi - lo
  {
    if lo < hi {
      SelectBelow(q, current, source, mapped, wanted, lo, hi - 1);
      assert OffsetOf(current, hi - 1) == hi - 1;
    }
  }

  lemma {:induction false} SelectAbove<T>(q: seq<T>, current: nat, source: set<nat>, mapped: set<nat>, wanted: bool,
                                          lo: nat, hi: nat)
    requires current < lo <= hi <= |q| && Maps(source, current, mapped)
    ensures Select(q, mapped, wanted, lo, hi) == Select(Without(q, current), source, wanted, lo - 1, hi - 1)
    decreases hi - lo
  {
    if lo < hi {
      SelectAbove(q, current, source, mapped, wanted, lo, hi - 1);
      assert OffsetOf(current, hi - 2) == hi - 1;
    }
  }

  /** A selection across the playing track is the selection of the rows with that track in its place. */
  lemma SelectAcross<T>(q: seq<T>, current: nat, source: set<nat>, mapped: set<nat>, wanted: bool, lo: nat, hi: nat)
    requires lo <= current < hi <= |q| && Maps(source, current, mapped)
    ensures var u := Without(q, current);
            Select(q, mapped, wanted, lo, hi) ==
            Select(u, source, wanted, lo, current) + (if wanted then [] else [q[current]]) +
            Select(u, source, wanted, current, hi - 1)
  {
    SelectBelow(q, current, source, mapped, wanted, lo, current);
    SelectAbove(q, current, source, mapped, wanted, current + 1, hi);
    SelectSplits(q, mapped, wanted, lo, current, hi);
    SelectSplits(q, mapped, wanted, current, current + 1, hi);
    assert Select(q, mapped, wanted, current, current + 1) == if wanted then [] else [q[current]];
    hide Select, Maps;
  }

  /** How many members of a set lie below `n`. */
  function CountBelow(s: set<nat>, n: nat): (c: nat)
    ensures c <= n
  {
    if n == 0 then 0 else CountBelow(s, n - 1) + if n - 1 in s then 1 else 0
  }

  lemma {:induction false} SelectCounts<T>(q: seq<T>, s: set<nat>, lo: nat, hi: nat)
    requires lo <= hi <= |q|
    ensures |Select(q, s, true, lo, hi)| == CountBelow(s, hi) - CountBelow(s, lo)
    ensures |Select(q, s, false, lo, hi)| == (hi - CountBelow(s, hi)) - (lo - CountBelow(s, lo))
    decreases hi - lo
  {
    if lo < hi {
      SelectCounts(q, s, lo, hi - 1);
    }
  }

  /** Where the playing entry ends up: behind the rows above it that stay, and behind the dragged ones if
      they are dropped above it. */
  function Slot(source: set<nat>, destination: nat, current: nat, rows: nat): nat
  {
    current - CountBelow(source, current) + if destination < current then CountBelow(source, rows) else 0
  }

  lemma SlotAbove<T>(u: seq<T>, source: set<nat>, destination: nat, current: nat)
    requires destination < current <= |u|
    ensures Slot(source, destination, current, |u|) ==
            |Select(u, source, false, 0, destination)| + |Select(u, source, true, 0, |u|)|
            + |Select(u, source, false, destination, current)|
  {
    SelectCounts(u, source, 0, destination);
    SelectCounts(u, source, 0, |u|);
    SelectCounts(u, source, destination, current);
  }

  lemma SlotBelow<T>(u: seq<T>, source: set<nat>, destination: nat, current: nat)
    requires current <= destination && current <= |u|
    ensures Slot(source, destination, current, |u|) == |Select(u, source, false, 0, current)|
  {
    SelectCounts(u, source, 0, current);
  }

  lemma Regroup<T>(a: seq<T>, b: seq<T>, c: seq<T>, d: seq<T>)
    ensures a + b + c + d == a + (b + c + d) == (a + b) + (c + d)
  {
  }

  lemma MoveBeforeCurrent<T>(q: seq<T>, current: nat, source: set<nat>, mapped: set<nat>, destination: nat)
    returns (before: seq<T>, after: seq<T>)
    requires destination < current < |q| && Maps(source, current, mapped)
    ensures Moved(q, mapped, destination) == before + [q[current]] + after
    ensures before + after == Moved(Without(q, current), source, destination)
    ensures |before| == Slot(source, destination, current, |q| - 1)
  {
    var u, last := Without(q, current), |q| - 1;
    SelectAcross(q, current, source, mapped, true, 0, |q|);
    SelectSplits(u, source, true, 0, current, last);
    SelectBelow(q, current, source, mapped, false, 0, destination);
    SelectAcross(q, current, source, mapped, false, destination, |q|);
    SelectSplits(u, source, false, destination, current, last);
    SlotAbove(u, source, destination, current);
    hide Select, Maps, Without, Slot;
    var front, moved := Select(u, source, false, 0, destination), Select(u, source, true, 0, last);
    var between := Select(u, source, false, destination, current);
    after := Select(u, source, false, current, last);
    before := front + moved + between;
    Regroup(front + moved, between, [q[current]], after);
    Regroup(front, moved, between, after);
  }

  lemma MoveBehindCurrent<T>(q: seq<T>, current: nat, source: set<nat>, mapped: set<nat>, destination: nat)
    returns (before: seq<T>, after: seq<T>)
    requires current <= destination < |q| && Maps(source, current, mapped)
    ensures Moved(q, mapped, destination + 1) == before + [q[current]] + after
    ensures before + after == Moved(Without(q, current), source, destination)
    ensures |before| == Slot(source, destination, current, |q| - 1)
  {
    hide Select, Maps, Without, Slot;
    var u, last := Without(q, current), |q| - 1;
    SelectAcross(q, current, source, mapped, true, 0, |q|);
    SelectSplits(u, source, true, 0, current, last);
    SelectAcross(q, current, source, mapped, false, 0, destination + 1);
    SelectAbove(q, current, source, mapped, false, destination + 1, |q|);
    SelectSplits(u, source, false, 0, current, destination);
    SlotBelow(u, source, destination, current);
    var between, moved := Select(u, source, false, current, destination), Select(u, source, true, 0, last);
    var rear := Select(u, source, false, destination, last);
    before := Select(u, source, false, 0, current);
    after := between + moved + rear;
    Regroup(before + [q[current]], between, moved, rear);
    Regroup(before, between, moved, rear);
  }

  /** Moving in the queue moves the rows, around the playing track. */
  lemma MoveAroundCurrent<T>(q: seq<T>, current: nat, source: set<nat>, mapped: set<nat>, destination: nat)
    returns (before: seq<T>, after: seq<T>)
    requires current < |q| && Maps(source, current, mapped) && destination < |q|
    ensures Moved(q, mapped, OffsetOf(current, destination)) == before + [q[current]] + after
    ensures before + after == Moved(Without(q, current), source, destination)
    ensures |before| == Slot(source, destination, current, |q| - 1)
  {
    hide Maps, Without, Moved, Slot;
    if destination < current {
      before, after := MoveBeforeCurrent(q, current, source, mapped, destination);
    } else {
      before, after := MoveBehindCurrent(q, current, source, mapped, destination);
    }
  }

  lemma MappedSourceMaps(p: Player, source: set<nat>)
    requires Valid(p) && p.currentIndex.Some? && forall i | i in source :: i < |Entries(p)|
    ensures Maps(source, p.currentIndex.value, MappedSource(Entries(p), source))
  {
    RowsAreTheRest(p);
  }

  lemma {:induction false} FirstIdAtMost(q: seq<Track>, at: nat)
    requires at < |q|
    ensures IndexOfId(q, q[at].id).Some? && IndexOfId(q, q[at].id).value <= at
  {
  }

  predicate AllAre<T(==)>(s: seq<T>, from: nat, to: nat, x: T)
    requires to <= |s|
  {
    forall i | from <= i < to :: s[i] == x
  }

  lemma {:induction false} SameWithout<T>(s: seq<T>, a: nat, b: nat)
    requires a <= b < |s|
    ensures Without(s, a) == Without(s, b) <==> AllAre(s, a, b, s[b])
    decreases b - a
  {
    if a < b {
      SameWithout(s, a + 1, b);
      if Without(s, a) == Without(s, b) {
        assert s[a] == Without(s, b)[a] == Without(s, a)[a] == s[a + 1];
        assert Without(s, a + 1) == Without(s, a);
      }
    }
  }

  lemma WithoutMiddle<T>(before: seq<T>, x: T, after: seq<T>)
    ensures Without(before + [x] + after, |before|) == before + after
  {
  }

  /** From the first entry of the playing id on there are only copies of the playing track. */
  predicate OnlyCopies(tracks: seq<Track>, playing: Track)
  {
    forall i, j | 0 <= i <= j < |tracks| && tracks[i].id == playing.id :: tracks[j] == playing
  }

  /** Dragging rows of Up Next anywhere: the queue becomes the moved list with the playing entry in its slot,
      and the controller takes the first entry of its id up to there for the playing one. So the list shows
      as moved if and only if, in the moved list above the slot, nothing but copies of the playing track
      stands from the first entry of its id on. */
  lemma UpNextMovesExactly(p: Player, source: set<nat>, destination: nat, shuffled: seq<nat>)
    requires Valid(p) && p.currentIndex.Some? && CanDrag(p, source, destination)
    ensures MappedDestination(p, Entries(p), destination) <= |p.queue| && |Rows(p)| == |Entries(p)|
    ensures var after, playing := OnMove(p, source, destination, shuffled), p.queue[p.currentIndex.value];
            var moved, slot := Moved(Rows(p), source, destination), Slot(source, destination, p.currentIndex.value, |Rows(p)|);
            && slot <= |moved|
            && after.queue == moved[..slot] + [playing] + moved[slot..]
            && after.currentIndex == IndexOfId(moved[..slot] + [playing], playing.id)
            && (Rows(after) == moved <==> OnlyCopies(moved[..slot], playing))
  {
    var current := p.currentIndex.value;
    RowsAreTheRest(p);
    MappedSourceMaps(p, source);
    var mapped, playing := MappedSource(Entries(p), source), p.queue[current];
    hide Maps, Moved, Entries, MappedDestination, MappedSource, Without, Slot;
    var before, rest := MoveAroundCurrent(p.queue, current, source, mapped, destination);
    var after := OnMove(p, source, destination, shuffled);
    assert (before + rest)[..|before|] == before && (before + rest)[|before|..] == rest;
    FoundUpTo(before, playing, rest);
    RowsAreTheRest(after);
    ShowsAsMoved(before, playing, rest, after.currentIndex.value);
  }

  lemma FoundUpTo(before: seq<Track>, playing: Track, rest: seq<Track>)
    ensures IndexOfId(before + [playing] + rest, playing.id) == IndexOfId(before + [playing], playing.id)
    ensures IndexOfId(before + [playing], playing.id).Some?
  {
    var s, whole := before + [playing], before + [playing] + rest;
    assert s[|before|] == playing && whole[|before|] == playing;
    FirstIdAtMost(s, |before|);
    FirstIdAtMost(whole, |before|);
    hide IndexOfId;
    var i, j := IndexOfId(s, playing.id).value, IndexOfId(whole, playing.id).value;
    assert forall k | 0 <= k <= |before| :: whole[k] == s[k];
  }

  lemma ShowsAsMoved(before: seq<Track>, playing: Track, rest: seq<Track>, at: nat)
    requires at <= |before| && IndexOfId(before + [playing], playing.id) == Some(at)
    ensures Without(before + [playing] + rest, at) == before + rest <==> OnlyCopies(before, playing)
  {
    var q, slot := before + [playing] + rest, |before|;
    WithoutMiddle(before, playing, rest);
    SameWithout(q, at, slot);
    CopiesFromFirst(before, playing, at);
    SameAbove(before, playing, rest, at);
    hide IndexOfId, OnlyCopies, AllAre, Without;
    assert q[slot] == playing;
  }

  lemma SameAbove(before: seq<Track>, playing: Track, rest: seq<Track>, at: nat)
    ensures AllAre(before + [playing] + rest, at, |before|, playing) == AllAre(before, at, |before|, playing)
  {
    assert forall k | 0 <= k < |before| :: (before + [playing] + rest)[k] == before[k];
  }

  lemma CopiesFromFirst(before: seq<Track>, playing: Track, at: nat)
    requires at <= |before| && IndexOfId(before + [playing], playing.id) == Some(at)
    ensures OnlyCopies(before, playing) <==> AllAre(before, at, |before|, playing)
  {
    hide IndexOfId;
    assert forall k | 0 <= k < |before| :: (before + [playing])[k] == before[k];
  }

  /** With the same track queued twice and its second copy playing, a drag that moves nothing already
      reorders the list: the controller goes on to take the first copy for the playing one. */
  lemma QueuedTwice(p: Player, a: Track, b: Track, shuffled: seq<nat>)
    requires Valid(p) && p.queue == [a, b, a] && p.currentIndex == Some(2) && a != b
    ensures CanDrag(p, {}, 0) && MappedDestination(p, Entries(p), 0) <= |p.queue|
    ensures Rows(p) == [a, b] && Moved(Rows(p), {}, 0) == [a, b]
    ensures Rows(OnMove(p, {}, 0, shuffled)) == [b, a]
  {
    RowsAreTheRest(p);
    NothingMoved([a, b]);
    hide Moved, Entries, MappedDestination;
    UpNextMovesExactly(p, {}, 0, shuffled);
    var after := OnMove(p, {}, 0, shuffled);
    assert CountBelow({}, 2) == 0 && Slot({}, 0, 2, 2) == 2;
    assert after.queue == [a, b, a] && after.currentIndex == Some(0);
    RowsAreTheRest(after);
  }

  lemma NothingMoved<T>(q: seq<T>)
    ensures Moved(q, {}, 0) == q
  {
    KeepAll(q, |q|);
  }

  lemma {:induction false} KeepAll<T>(q: seq<T>, n: nat)
    requires n <= |q|
    ensures Select(q, {}, false, 0, n) == q[..n] && Select(q, {}, true, 0, n) == []
    decreases n
  {
    if n > 0 {
      KeepAll(q, n - 1);
    }
  }

  /** Dragging rows of Up Next anywhere: the list afterwards is the list before with those rows moved, and
      the same track plays. */
  lemma UpNextMoves(p: Player, source: set<nat>, destination: nat, shuffled: seq<nat>)
    requires Valid(p) && PlaysOnce(p) && CanDrag(p, source, destination)
    ensures MappedDestination(p, Entries(p), destination) <= |p.queue| && |Rows(p)| == |Entries(p)|
    ensures Rows(OnMove(p, source, destination, shuffled)) == Moved(Rows(p), source, destination)
    ensures CurrentTrack(OnMove(p, source, destination, shuffled)) == CurrentTrack(p)
  {
    if p.currentIndex.None? {
      NothingPlaying(p, source, destination);
      NothingPlaying(p.(queue := Moved(p.queue, source, destination)), {}, 0);
    } else {
      UpNextMovesExactly(p, source, destination, shuffled);
      RowsAreTheRest(p);
      MovedMembers(Rows(p), source, destination);
      hide Moved, Entries, MappedDestination, MappedSource, Slot;
      var playing, moved := p.queue[p.currentIndex.value], Moved(Rows(p), source, destination);
      assert forall t | t in moved :: t.id != playing.id;
      IdComesLast(moved[..Slot(source, destination, p.currentIndex.value, |Rows(p)|)], playing);
    }
  }

  lemma IdComesLast(tracks: seq<Track>, playing: Track)
    requires forall i | 0 <= i < |tracks| :: tracks[i].id != playing.id
    ensures OnlyCopies(tracks, playing) && IndexOfId(tracks + [playing], playing.id) == Some(|tracks|)
  {
    FirstIdAtMost(tracks + [playing], |tracks|);
  }

  lemma MovedMembers<T>(q: seq<T>, from: set<nat>, to: nat)
    requires to <= |q|
    ensures forall x | x in Moved(q, from, to) :: x in q
  {
    MoveKeepsTracks(q, from, to);
    hide Moved;
    forall x | x in Moved(q, from, to) ensures x in q {
      assert x in multiset(Moved(q, from, to));
    }
  }

  lemma NothingPlaying(p: Player, source: set<nat>, destination: nat)
    requires p.currentIndex.None? && CanDrag(p, source, destination)
    ensures Rows(p) == p.queue && |Entries(p)| == |p.queue|
    ensures MappedDestination(p, Entries(p), destination) == destination
    ensures MappedSource(Entries(p), source) == source
  {
    EntriesPastCurrent(p.queue, None, 0);
  }
}
