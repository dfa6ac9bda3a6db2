/** The player's queue: current index, shuffle order, repeat mode, skipping and queue editing. */
module Player {
  import opened Common

  datatype Track = Track(id: nat, title: string)

  datatype RepeatMode = Off | All | One

  /** The fields of `PlaybackController` that drive the queue; `currentTime` is in milliseconds. */
  datatype Player = Player(
    queue: seq<Track>, currentIndex: Option<nat>, shuffleEnabled: bool, repeatMode: RepeatMode,
    shuffleOrder: seq<nat>, isPlaying: bool, currentTime: int)

  function Indices(n: nat): (s: seq<nat>)
    ensures |s| == n && forall i | 0 <= i < n :: s[i] == i
  {
    seq(n, i => i)
  }

  /** Each index below `n` exactly once. */
  predicate IsPermutation(s: seq<nat>, n: nat)
  {
    && |s| == n
    && (forall i | 0 <= i < n :: s[i] < n)
    && (forall i, j | 0 <= i < j < n :: s[i] != s[j])
  }

  function FirstIndex(s: seq<nat>, x: nat): (r: Option<nat>)
    ensures r.Some? ==> r.value < |s| && s[r.value] == x && forall i | 0 <= i < r.value :: s[i] != x
    ensures r.None? ==> x !in s
  {
    if s == [] then None
    else if s[0] == x then Some(0)
    else
      var r := FirstIndex(s[1..], x);
      if r.None? then None else Some(r.value + 1)
  }

  /** `queue.firstIndex(where: { $0.id == id })`. */
  function IndexOfId(q: seq<Track>, id: nat): (r: Option<nat>)
    ensures r.Some? ==> r.value < |q| && q[r.value].id == id && forall i | 0 <= i < r.value :: q[i].id != id
    ensures r.None? ==> forall i | 0 <= i < |q| :: q[i].id != id
  {
    if q == [] then None
    else if q[0].id == id then Some(0)
    else
      var r := IndexOfId(q[1..], id);
      if r.None? then None else Some(r.value + 1)
  }

  /** What every reachable state keeps. */
  predicate Valid(p: Player)
  {
    && IsPermutation(p.shuffleOrder, |p.queue|)
    && (p.currentIndex.Some? ==> p.currentIndex.value < |p.queue|)
  }

  const FRESH := Player([], None, false, Off, [], false, 0)

  /** The order in which skipping walks the queue. */
  function Order(p: Player): seq<nat>
  {
    if p.shuffleEnabled then p.shuffleOrder else Indices(|p.queue|)
  }

  /** `reindexShuffleOrder`; `shuffled` is what `shuffle()` makes of the indices. */
  function Reindex(p: Player, shuffled: seq<nat>): Player
  {
    p.(shuffleOrder := if p.shuffleEnabled then shuffled else Indices(|p.queue|))
  }

  /** `loadCurrentItem`: nothing without a current track; otherwise from the start. */
  function Load(p: Player, autoplay: bool): Player
  {
    if p.currentIndex.Some? && p.currentIndex.value < |p.queue|
    then p.(currentTime := 0, isPlaying := p.isPlaying || autoplay) else p
  }

  function Play(p: Player, tracks: seq<Track>, start: nat, shuffled: seq<nat>): Player
  {
    if start >= |tracks| then p
    else Load(Reindex(p.(queue := tracks), shuffled).(currentIndex := Some(start)), true)
  }

  /** `advance(by:wrapping:)` for a step of one, forward or back. */
  function Advance(p: Player, forward: bool): Player
  {
    if p.currentIndex.None? || p.queue == [] then p
    else
      var order := Order(p);
      var at := FirstIndex(order, p.currentIndex.value);
      if at.None? then p
      else
        var next := at.value as int + if forward then 1 else -1;
        if next < 0 then MoveTo(p, order, if p.repeatMode.All? then |order| - 1 else 0)
        else if next < |order| then MoveTo(p, order, next)
        else if p.repeatMode.All? then MoveTo(p, order, 0)
        else p.(isPlaying := false)
  }

  function MoveTo(p: Player, order: seq<nat>, position: nat): Player
  {
    if position < |order| then Load(p.(currentIndex := Some(order[position])), p.isPlaying) else p
  }

  function SkipToNext(p: Player): Player { Advance(p, true) }

  /** Back to the start of the track when more than three seconds in, else to the previous track. */
  function SkipToPrevious(p: Player): Player
  {
    if p.currentTime > 3000 then p.(currentTime := 0) else Advance(p, false)
  }

  /** A track that played to its end repeats under repeat-one. */
  function PlaybackEnded(p: Player): Player
  {
    if p.repeatMode.One? then p.(currentTime := 0) else SkipToNext(p)
  }

  function SetShuffle(p: Player, enabled: bool, shuffled: seq<nat>): Player
  {
    Reindex(p.(shuffleEnabled := enabled), shuffled)
  }

  function PlayQueueItem(p: Player, index: nat): Player
  {
    if index < |p.queue| then Load(p.(currentIndex := Some(index)), true) else p
  }

  function PlayNext(p: Player, track: Track, shuffled: seq<nat>): Player
  {
    if p.currentIndex.None? then Play(p, [track], 0, shuffled)
    else
      var at := Min(p.currentIndex.value + 1, |p.queue|);
      Reindex(p.(queue := p.queue[..at] + [track] + p.queue[at..]), shuffled)
  }

  function AddToQueue(p: Player, track: Track, shuffled: seq<nat>): Player
  {
    if p.currentIndex.None? then Play(p, [track], 0, shuffled)
    else Reindex(p.(queue := p.queue + [track]), shuffled)
  }

  /** The elements whose indices are in `s` (`wanted`) or outside it, between `lo` and `hi`. */
  function Select<T>(q: seq<T>, s: set<nat>, wanted: bool, lo: nat, hi: nat): seq<T>
    requires lo <= hi <= |q|
    decreases hi - lo
  {
    if lo == hi then []
    else Select(q, s, wanted, lo, hi - 1) + if (hi - 1 in s) == wanted then [q[hi - 1]] else []
  }

  /** `move(fromOffsets:toOffset:)`: the moved elements, in order, in front of what stood at `to`. */
  function Moved<T>(q: seq<T>, from: set<nat>, to: nat): seq<T>
    requires to <= |q|
  {
    Select(q, from, false, 0, to) + Select(q, from, true, 0, |q|) + Select(q, from, false, to, |q|)
  }

  function CurrentTrack(p: Player): Option<Track>
  {
    if p.currentIndex.Some? && p.currentIndex.value < |p.queue| then Some(p.queue[p.currentIndex.value]) else None
  }

  function MoveQueueItems(p: Player, from: set<nat>, to: nat, shuffled: seq<nat>): Player
    requires to <= |p.queue|
  {
    var playing := CurrentTrack(p);
    var q := Moved(p.queue, from, to);
    Reindex(p.(queue := q,
               currentIndex := if playing.Some? then IndexOfId(q, playing.value.id) else p.currentIndex), shuffled)
  }

  function RemoveQueueItems(p: Player, offsets: set<nat>, shuffled: seq<nat>): Player
  {
    var playing := CurrentTrack(p);
    var q := Select(p.queue, offsets, false, 0, |p.queue|);
    var at := if playing.Some? then IndexOfId(q, playing.value.id) else None;
    Reindex(p.(queue := q, currentIndex := at, isPlaying := p.isPlaying && at.Some?), shuffled)
  }

  // ---------------------------------------------------------------------------------------------
  // Every sequence of operations
  // ---------------------------------------------------------------------------------------------

  datatype Op =
    | PlayOp(tracks: seq<Track>, start: nat)
    | NextOp
    | PreviousOp
    | ShuffleOp(enabled: bool)
    | RepeatOp(mode: RepeatMode)
    | ItemOp(index: nat)
    | PlayNextOp(track: Track)
    | AddOp(track: Track)
    | MoveOp(from: set<nat>, to: nat)
    | RemoveOp(offsets: set<nat>)
    | TimeOp(now: int)
    | PauseOp
    | ResumeOp
    | EndedOp

  /** Offsets the list view can hand over. */
  predicate LegalOp(p: Player, op: Op)
  {
    op.MoveOp? ==> op.to <= |p.queue| && forall i | i in op.from :: i < |p.queue|
  }

  function Do(p: Player, op: Op, shuffled: seq<nat>): Player
    requires LegalOp(p, op)
  {
    match op
    case PlayOp(tracks, start) => Play(p, tracks, start, shuffled)
    case NextOp => SkipToNext(p)
    case PreviousOp => SkipToPrevious(p)
    case ShuffleOp(enabled) => SetShuffle(p, enabled, shuffled)
    case RepeatOp(mode) => p.(repeatMode := mode)
    case ItemOp(index) => PlayQueueItem(p, index)
    case PlayNextOp(track) => PlayNext(p, track, shuffled)
    case AddOp(track) => AddToQueue(p, track, shuffled)
    case MoveOp(from, to) => MoveQueueItems(p, from, to, shuffled)
    case RemoveOp(offsets) => RemoveQueueItems(p, offsets, shuffled)
    case TimeOp(now) => p.(currentTime := now)
    case PauseOp => p.(isPlaying := false)
    case ResumeOp => if CurrentTrack(p).Some? then p.(isPlaying := true) else p
    case EndedOp => PlaybackEnded(p)
  }

  /** How many tracks the queue has after an operation, which is what `shuffle` permutes. */
  function LengthAfter(p: Player, op: Op): nat
    requires LegalOp(p, op)
  {
    |Do(p, op, []).queue|
  }

  lemma IndicesArePermutation(n: nat)
    ensures IsPermutation(Indices(n), n)
  {
  }

  lemma {:induction false} SelectLengths<T>(q: seq<T>, s: set<nat>, lo: nat, hi: nat)
    requires lo <= hi <= |q|
    ensures |Select(q, s, true, lo, hi)| + |Select(q, s, false, lo, hi)| == hi - lo
    decreases hi - lo
  {
    if lo < hi {
      SelectLengths(q, s, lo, hi - 1);
    }
  }

  lemma {:induction false} SelectSplits<T>(q: seq<T>, s: set<nat>, wanted: bool, lo: nat, mid: nat, hi: nat)
    requires lo <= mid <= hi <= |q|
    ensures Select(q, s, wanted, lo, hi) == Select(q, s, wanted, lo, mid) + Select(q, s, wanted, mid, hi)
    decreases hi - mid
  {
    if mid < hi {
      SelectSplits(q, s, wanted, lo, mid, hi - 1);
    }
  }

  ghost predicate SameElements<T>(a: seq<T>, b: seq<T>, all: seq<T>)
  {
    multiset(a) + multiset(b) == multiset(all)
  }

  lemma AddOne<T>(a: seq<T>, b: seq<T>, all: seq<T>, x: T)
    requires SameElements(a, b, all)
    ensures SameElements(a + [x], b, all + [x]) && SameElements(a, b + [x], all + [x])
  {
  }

  /** Moving keeps every track exactly once. */
  lemma {:induction false} SelectElements<T>(q: seq<T>, s: set<nat>, lo: nat, hi: nat)
    requires lo <= hi <= |q|
    ensures SameElements(Select(q, s, true, lo, hi), Select(q, s, false, lo, hi), q[lo..hi])
    decreases hi - lo
  {
    hide SameElements;
    if lo == hi {
      assert q[lo..hi] == [];
      EmptyElements<T>();
    } else {
      SelectElements(q, s, lo, hi - 1);
      SelectOneMore(q, s, lo, hi);
    }
  }

  lemma EmptyElements<T>()
    ensures SameElements<T>([], [], [])
  {
  }

  lemma SelectOneMore<T>(q: seq<T>, s: set<nat>, lo: nat, hi: nat)
    requires lo < hi <= |q|
    requires SameElements(Select(q, s, true, lo, hi - 1), Select(q, s, false, lo, hi - 1), q[lo..hi - 1])
    ensures SameElements(Select(q, s, true, lo, hi), Select(q, s, false, lo, hi), q[lo..hi])
  {
    SelectLast(q, s, true, lo, hi);
    SelectLast(q, s, false, lo, hi);
    hide SameElements, Select;
    AddOne(Select(q, s, true, lo, hi - 1), Select(q, s, false, lo, hi - 1), q[lo..hi - 1], q[hi - 1]);
    SliceSnoc(q, lo, hi);
  }

  lemma SliceSnoc<T>(q: seq<T>, lo: nat, hi: nat)
    requires lo < hi <= |q|
    ensures q[lo..hi] == q[lo..hi - 1] + [q[hi - 1]]
  {
  }

  lemma SelectLast<T>(q: seq<T>, s: set<nat>, wanted: bool, lo: nat, hi: nat)
    requires lo < hi <= |q|
    ensures var front := Select(q, s, wanted, lo, hi - 1);
            Select(q, s, wanted, lo, hi) == if (hi - 1 in s) == wanted then front + [q[hi - 1]] else front
  {
  }

  lemma MoveKeepsTracks<T>(q: seq<T>, from: set<nat>, to: nat)
    requires to <= |q|
    ensures |Moved(q, from, to)| == |q| && multiset(Moved(q, from, to)) == multiset(q)
  {
    SelectLengths(q, from, 0, |q|);
    SelectSplits(q, from, false, 0, to, |q|);
    SelectElements(q, from, 0, |q|);
    assert q[0..|q|] == q;
  }

  /** Whatever is dragged wherever, the track that plays keeps playing: the current index follows its id. */
  lemma MoveKeepsPlaying(p: Player, from: set<nat>, to: nat, shuffled: seq<nat>)
    requires Valid(p) && p.currentIndex.Some? && to <= |p.queue|
    ensures var after := MoveQueueItems(p, from, to, shuffled);
            CurrentTrack(after).Some? && CurrentTrack(after).value.id == CurrentTrack(p).value.id
  {
    MoveKeepsTracks(p.queue, from, to);
    hide Moved;
    assert CurrentTrack(p).value in multiset(p.queue);
  }

  /** No other queue entry is the track that plays. */
  predicate PlaysOnce(p: Player)
  {
    p.currentIndex.Some? && p.currentIndex.value < |p.queue| ==>
      forall i: nat | i < |p.queue| && i != p.currentIndex.value :: p.queue[i].id != p.queue[p.currentIndex.value].id
  }

  lemma {:induction false} SelectMembers<T>(q: seq<T>, s: set<nat>, wanted: bool, lo: nat, hi: nat, x: T)
    requires lo <= hi <= |q|
    ensures x in Select(q, s, wanted, lo, hi) <==> exists i: nat :: lo <= i < hi && (i in s) == wanted && q[i] == x
    decreases hi - lo
  {
    if lo < hi {
      SelectMembers(q, s, wanted, lo, hi - 1, x);
      SelectLast(q, s, wanted, lo, hi);
      hide Select;
    }
  }

  /** Every entry with the playing track's id is among the offsets. */
  predicate RemovesPlaying(p: Player, offsets: set<nat>)
    requires Valid(p) && p.currentIndex.Some?
  {
    forall i: nat | i < |p.queue| && p.queue[i].id == p.queue[p.currentIndex.value].id :: i in offsets
  }

  /** Deleting rows stops playback if and only if every entry with the playing id is among them; otherwise
      an entry with that id goes on as before. With the id queued once that is the playing row, and it is
      the same track that goes on. */
  lemma RemoveKeepsPlaying(p: Player, offsets: set<nat>, shuffled: seq<nat>)
    requires Valid(p) && p.currentIndex.Some?
    ensures var after, playing := RemoveQueueItems(p, offsets, shuffled), p.queue[p.currentIndex.value];
            && (if RemovesPlaying(p, offsets) then after.currentIndex == None && !after.isPlaying
                else CurrentTrack(after).Some? && CurrentTrack(after).value.id == playing.id && after.isPlaying == p.isPlaying)
            && (PlaysOnce(p) ==> (RemovesPlaying(p, offsets) <==> p.currentIndex.value in offsets))
            && (PlaysOnce(p) && !RemovesPlaying(p, offsets) ==> CurrentTrack(after) == Some(playing))
  {
    var playing := p.queue[p.currentIndex.value];
    var q := Select(p.queue, offsets, false, 0, |p.queue|);
    var at := IndexOfId(q, playing.id);
    if at.Some? {
      SelectMembers(p.queue, offsets, false, 0, |p.queue|, q[at.value]);
      hide Select;
      assert q[at.value] in q;
      var i: nat :| i < |p.queue| && (i in offsets) == false && p.queue[i] == q[at.value];
      assert !RemovesPlaying(p, offsets);
    } else {
      forall i: nat | i < |p.queue| && p.queue[i].id == playing.id ensures i in offsets {
        SelectMembers(p.queue, offsets, false, 0, |p.queue|, p.queue[i]);
        hide Select;
        assert p.queue[i] !in q;
      }
    }
  }

  /** A track queued to play next does not disturb the one playing, and with shuffle off it is next. */
  lemma PlayNextIsNext(p: Player, track: Track, shuffled: seq<nat>)
    requires Valid(p) && p.currentIndex.Some?
    ensures var after := PlayNext(p, track, shuffled);
            && CurrentTrack(after) == CurrentTrack(p)
            && (!p.shuffleEnabled ==> CurrentTrack(SkipToNext(after)) == Some(track))
  {
    var k := p.currentIndex.value;
    var after := PlayNext(p, track, shuffled);
    if !p.shuffleEnabled {
      IndicesArePermutation(|after.queue|);
      assert Valid(after) && StandsAt(after, k);
      AdvanceFrom(after, k);
    }
  }

  lemma ReindexKeepsValid(p: Player, shuffled: seq<nat>)
    requires IsPermutation(shuffled, |p.queue|) && (p.currentIndex.Some? ==> p.currentIndex.value < |p.queue|)
    ensures Valid(Reindex(p, shuffled))
  {
    IndicesArePermutation(|p.queue|);
  }

  lemma AdvanceKeepsValid(p: Player, forward: bool)
    requires Valid(p)
    ensures Valid(Advance(p, forward))
  {
    hide FirstIndex, Order, MoveTo, IsPermutation;
    OrderIsPermutation(p);
    forall k ensures Valid(MoveTo(p, Order(p), k)) {
      MoveToKeepsValid(p, Order(p), k);
    }
  }

  lemma MoveToKeepsValid(p: Player, order: seq<nat>, position: nat)
    requires Valid(p) && IsPermutation(order, |p.queue|)
    ensures Valid(MoveTo(p, order, position))
  {
  }

  lemma PlayKeepsValid(p: Player, tracks: seq<Track>, start: nat, shuffled: seq<nat>)
    requires Valid(p) && IsPermutation(shuffled, if start < |tracks| then |tracks| else |p.queue|)
    ensures Valid(Play(p, tracks, start, shuffled))
  {
    if start < |tracks| {
      IndicesArePermutation(|tracks|);
    }
  }

  lemma StepKeepsValid(p: Player, op: Op, shuffled: seq<nat>)
    requires Valid(p) && LegalOp(p, op) && IsPermutation(shuffled, LengthAfter(p, op))
    ensures Valid(Do(p, op, shuffled))
  {
    hide Select, Advance, IsPermutation, Moved;
    match op
    case PlayOp(tracks, start) => PlayKeepsValid(p, tracks, start, shuffled);
    case NextOp => AdvanceKeepsValid(p, true);
    case PreviousOp => AdvanceKeepsValid(p, false);
    case EndedOp => AdvanceKeepsValid(p, true);
    case ShuffleOp(enabled) => ReindexKeepsValid(p.(shuffleEnabled := enabled), shuffled);
    case PlayNextOp(track) =>
      if p.currentIndex.None? {
        PlayKeepsValid(p, [track], 0, shuffled);
      } else {
        var at := p.currentIndex.value + 1;
        ReindexKeepsValid(p.(queue := p.queue[..at] + [track] + p.queue[at..]), shuffled);
      }
    case AddOp(track) =>
      if p.currentIndex.None? {
        PlayKeepsValid(p, [track], 0, shuffled);
      } else {
        ReindexKeepsValid(p.(queue := p.queue + [track]), shuffled);
      }
    case MoveOp(from, to) =>
      MoveKeepsTracks(p.queue, from, to);
      var q := Moved(p.queue, from, to);
      var playing := CurrentTrack(p);
      ReindexKeepsValid(p.(queue := q,
        currentIndex := if playing.Some? then IndexOfId(q, playing.value.id) else p.currentIndex), shuffled);
    case RemoveOp(offsets) =>
      var q := Select(p.queue, offsets, false, 0, |p.queue|);
      var playing := CurrentTrack(p);
      var at := if playing.Some? then IndexOfId(q, playing.value.id) else None;
      ReindexKeepsValid(p.(queue := q, currentIndex := at, isPlaying := p.isPlaying && at.Some?), shuffled);
    case _ =>
  }

  /** A run of operations, each with the permutation its shuffle drew. */
  ghost predicate CanRun(p: Player, ops: seq<(Op, seq<nat>)>)
    decreases |ops|
  {
    ops == [] ||
    (LegalOp(p, ops[0].0) && IsPermutation(ops[0].1, LengthAfter(p, ops[0].0)) &&
     CanRun(Do(p, ops[0].0, ops[0].1), ops[1..]))
  }

  function RunOf(p: Player, ops: seq<(Op, seq<nat>)>): Player
    requires CanRun(p, ops)
    decreases |ops|
  {
    if ops == [] then p else RunOf(Do(p, ops[0].0, ops[0].1), ops[1..])
  }

  /** In every reachable state the shuffle order is a permutation of the indices and the current index
      is nil or in range. */
  lemma {:induction false} RunKeepsValid(p: Player, ops: seq<(Op, seq<nat>)>)
    requires Valid(p) && CanRun(p, ops)
    ensures Valid(RunOf(p, ops))
    decreases |ops|
  {
    if ops != [] {
      hide Do, Valid;
      StepKeepsValid(p, ops[0].0, ops[0].1);
      RunKeepsValid(Do(p, ops[0].0, ops[0].1), ops[1..]);
    }
  }

  // ---------------------------------------------------------------------------------------------
  // Cycling
  // ---------------------------------------------------------------------------------------------

  lemma OrderIsPermutation(p: Player)
    requires Valid(p)
    ensures IsPermutation(Order(p), |p.queue|)
  {
  }

  function Below(n: nat): (r: set<nat>)
    ensures |r| == n && forall x: nat :: x in r <==> x < n
  {
    if n == 0 then {} else Below(n - 1) + {n - 1}
  }

  /** The first `k` values of a sequence without repetition. */
  function Image(s: seq<nat>, k: nat): (r: set<nat>)
    requires k <= |s| && forall i, j | 0 <= i < j < |s| :: s[i] != s[j]
    ensures |r| == k && forall x :: x in r <==> exists i :: 0 <= i < k && s[i] == x
  {
    if k == 0 then {} else Image(s, k - 1) + {s[k - 1]}
  }

  lemma {:induction false} SubsetSize(a: set<nat>, b: set<nat>)
    requires a <= b
    ensures |a| <= |b|
    decreases a
  {
    if a != {} {
      var x :| x in a;
      SubsetSize(a - {x}, b - {x});
    }
  }

  /** An injective map of n indices below n reaches each. */
  lemma PermutationReaches(s: seq<nat>, n: nat, x: nat)
    requires IsPermutation(s, n) && x < n
    ensures x in s
  {
    var image := Image(s, n);
    assert image <= Below(n);
    if x !in image {
      SubsetSize(image, Below(n) - {x});
    }
  }

  lemma FirstIndexInPermutation(s: seq<nat>, n: nat, k: nat)
    requires IsPermutation(s, n) && k < n
    ensures FirstIndex(s, s[k]) == Some(k)
  {
  }

  /** Where the current track stands in the skipping order. */
  predicate StandsAt(p: Player, k: nat)
  {
    k < |p.queue| && |Order(p)| == |p.queue| && p.currentIndex == Some(Order(p)[k])
  }

  lemma CurrentStands(p: Player) returns (k: nat)
    requires Valid(p) && p.currentIndex.Some?
    ensures StandsAt(p, k)
  {
    OrderIsPermutation(p);
    PermutationReaches(Order(p), |p.queue|, p.currentIndex.value);
    k :| 0 <= k < |Order(p)| && Order(p)[k] == p.currentIndex.value;
  }

  function Skipped(p: Player, times: nat): Player
  {
    if times == 0 then p else SkipToNext(Skipped(p, times - 1))
  }

  /** Loading the track at a position, from its start. */
  function At(p: Player, position: nat): Player
    requires position < |Order(p)|
  {
    p.(currentIndex := Some(Order(p)[position]), currentTime := 0)
  }

  lemma AdvanceFrom(p: Player, k: nat)
    requires Valid(p) && StandsAt(p, k)
    ensures |Order(p)| == |p.queue| && k < |p.queue|
    ensures Advance(p, true) ==
            if k + 1 < |p.queue| then At(p, k + 1) else if p.repeatMode.All? then At(p, 0) else p.(isPlaying := false)
    ensures Advance(p, false) ==
            if k > 0 then At(p, k - 1) else At(p, if p.repeatMode.All? then |p.queue| - 1 else 0)
  {
    OrderIsPermutation(p);
    FirstIndexInPermutation(Order(p), |p.queue|, k);
    hide Order, FirstIndex, IsPermutation, MoveTo, Valid;
    forall i: nat | i < |p.queue|
      ensures MoveTo(p, Order(p), i) == At(p, i)
    {
      MoveToIsAt(p, i);
    }
  }

  lemma MoveToIsAt(p: Player, position: nat)
    requires Valid(p) && |Order(p)| == |p.queue| && position < |p.queue|
    ensures MoveTo(p, Order(p), position) == At(p, position)
  {
    OrderIsPermutation(p);
    hide Order;
  }

  lemma AtStands(p: Player, position: nat)
    requires Valid(p) && position < |p.queue| && |Order(p)| == |p.queue|
    ensures Order(At(p, position)) == Order(p) && Valid(At(p, position)) && StandsAt(At(p, position), position)
  {
    OrderIsPermutation(p);
  }

  /** Position `t` skips after position `k`, for at most one round. */
  function Later(k: nat, t: nat, n: nat): (r: nat)
    requires k < n && t <= n
    ensures r < n
  {
    if k + t < n then k + t else k + t - n
  }

  lemma LaterStep(k: nat, t: nat, n: nat)
    requires k < n && t < n
    ensures Later(k, t + 1, n) == if Later(k, t, n) + 1 < n then Later(k, t, n) + 1 else 0
  {
  }

  /** A round of skips under repeat-all, so far: the same queue and order, standing at position `at`. */
  predicate OnRound(p: Player, q: Player, at: nat)
  {
    q.queue == p.queue && Order(q) == Order(p) && q.repeatMode.All? && Valid(q) && StandsAt(q, at)
  }

  lemma RoundStarts(p: Player, k: nat)
    requires Valid(p) && StandsAt(p, k) && p.repeatMode.All?
    ensures OnRound(p, p, k)
  {
    hide Valid, StandsAt, Order;
  }

  lemma {:induction false} SkipManyMoves(p: Player, k: nat, times: nat)
    requires Valid(p) && StandsAt(p, k) && p.repeatMode.All? && times <= |p.queue| && k < |p.queue|
    ensures OnRound(p, Skipped(p, times), Later(k, times, |p.queue|))
    decreases times
  {
    hide OnRound, Valid, StandsAt, SkipToNext;
    if times == 0 {
      RoundStarts(p, k);
    } else {
      hide Later;
      SkipManyMoves(p, k, times - 1);
      SkipOnce(p, Skipped(p, times - 1), Later(k, times - 1, |p.queue|));
      LaterStep(k, times - 1, |p.queue|);
    }
  }

  lemma SkipOnce(start: Player, p: Player, k: nat)
    requires OnRound(start, p, k) && k < |start.queue|
    ensures OnRound(start, SkipToNext(p), if k + 1 < |start.queue| then k + 1 else 0)
  {
    hide Order, Valid, Advance;
    AdvanceFrom(p, k);
    AtStands(p, if k + 1 < |p.queue| then k + 1 else 0);
  }

  /** Under repeat-all, shuffled or not, as many skips as there are tracks visit every index exactly once
      and come back to the start. */
  lemma CycleVisitsAll(p: Player, x: nat) returns (times: nat)
    requires Valid(p) && p.currentIndex.Some? && p.repeatMode.All? && x < |p.queue|
    ensures times < |p.queue| && Skipped(p, times).currentIndex == Some(x)
    ensures forall t | 0 <= t < |p.queue| && t != times :: Skipped(p, t).currentIndex != Some(x)
    ensures Skipped(p, |p.queue|).currentIndex == p.currentIndex
  {
    hide Skipped, Valid, Order;
    var n, order := |p.queue|, Order(p);
    var k := CurrentStands(p);
    OrderIsPermutation(p);
    PermutationReaches(order, n, x);
    var at :| 0 <= at < n && order[at] == x;
    times := if at >= k then at - k else at + n - k;
    forall t | 0 <= t <= n
      ensures Skipped(p, t).currentIndex == Some(order[Later(k, t, n)])
    {
      SkipManyMoves(p, k, t);
    }
    assert Later(k, times, n) == at && Later(k, n, n) == k;
  }

  /** Skipping back right after skipping on returns to the same index exactly when there was a next track
      to go to (repeat-all always has one), or nowhere else to go, or the track was past three seconds. */
  lemma PreviousUndoesNext(p: Player, k: nat)
    requires Valid(p) && StandsAt(p, k)
    ensures SkipToPrevious(SkipToNext(p)).currentIndex == p.currentIndex <==>
            p.repeatMode.All? || k + 1 < |p.queue| || |p.queue| == 1 || p.currentTime > 3000
  {
    hide Order, SkipToNext, SkipToPrevious;
    if k + 1 < |p.queue| || p.repeatMode.All? {
      BackAfterMove(p, k);
    } else {
      BackAfterPause(p, k);
    }
  }

  lemma BackAfterMove(p: Player, k: nat)
    requires Valid(p) && StandsAt(p, k) && (p.repeatMode.All? || k + 1 < |p.queue|)
    ensures SkipToPrevious(SkipToNext(p)).currentIndex == p.currentIndex
  {
    hide Order, Advance, Valid;
    AdvanceFrom(p, k);
    var at := if k + 1 < |p.queue| then k + 1 else 0;
    AtStands(p, at);
    AdvanceFrom(At(p, at), at);
  }

  /** At the end without repeat-all, skipping on only pauses; skipping back then leaves the index alone
      if it rewinds or if there is just one track. */
  lemma BackAfterPause(p: Player, k: nat)
    requires Valid(p) && StandsAt(p, k) && !p.repeatMode.All? && k + 1 == |p.queue|
    ensures SkipToPrevious(SkipToNext(p)).currentIndex == p.currentIndex <==> |p.queue| == 1 || p.currentTime > 3000
  {
    OrderIsPermutation(p);
    var q := p.(isPlaying := false);
    PausedOrder(p);
    hide Order, Advance;
    AdvanceFrom(p, k);
    AdvanceFrom(q, k);
  }

  lemma PausedOrder(p: Player)
    ensures Order(p.(isPlaying := false)) == Order(p)
  {
  }
}
