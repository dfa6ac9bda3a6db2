/** What the player's operations do to what is heard and to the queue, entry by entry. */
module QueueEdits {
  import opened Common
  import opened Player

  // ---------------------------------------------------------------------------------------------
  // What plays
  // ---------------------------------------------------------------------------------------------

  /** A track plays from its start. */
  predicate Starts(p: Player, track: Track)
  {
    CurrentTrack(p) == Some(track) && p.isPlaying && p.currentTime == 0
  }

  predicate SameModes(p: Player, q: Player)
  {
    q.shuffleEnabled == p.shuffleEnabled && q.repeatMode == p.repeatMode
  }

  predicate SameSound(p: Player, q: Player)
  {
    CurrentTrack(q) == CurrentTrack(p) && q.isPlaying == p.isPlaying && q.currentTime == p.currentTime
  }

  /** Playing a list: from its start, the track at the start index; an index outside it changes nothing. */
  lemma PlayStarts(p: Player, tracks: seq<Track>, start: nat, shuffled: seq<nat>)
    ensures var after := Do(p, PlayOp(tracks, start), shuffled);
            if start < |tracks| then
              && after.queue == tracks && Starts(after, tracks[start]) && after.currentIndex == Some(start)
              && SameModes(p, after) && (p.shuffleEnabled ==> Order(after) == shuffled)
            else after == p
  {
  }

  /** Choosing an entry of the queue: it plays from its start, and queue, order and modes stay. */
  lemma ItemStarts(p: Player, index: nat)
    ensures var after := Do(p, ItemOp(index), []);
            if index < |p.queue| then
              && Starts(after, p.queue[index]) && after.currentIndex == Some(index)
              && after.queue == p.queue && Order(after) == Order(p) && SameModes(p, after)
            else after == p
  {
  }

  /** What is heard after skipping on or back from position `k` of the order. */
  predicate Reaches(p: Player, after: Player, position: nat)
    requires Valid(p) && position < |p.queue|
  {
    OrderIsPermutation(p);
    && CurrentTrack(after) == Some(p.queue[Order(p)[position]]) && after.currentTime == 0
    && after.isPlaying == p.isPlaying && after.queue == p.queue && SameModes(p, after)
  }

  lemma AtReaches(p: Player, position: nat)
    requires Valid(p) && |Order(p)| == |p.queue| && position < |p.queue|
    ensures Reaches(p, At(p, position), position)
  {
    OrderIsPermutation(p);
    hide Order;
  }

  /** A track that ends: under repeat-one it is heard again; otherwise the next in order, round again under
      repeat-all; and at the end of the order playback pauses where it is. */
  lemma EndedMeaning(p: Player, k: nat)
    requires Valid(p) && StandsAt(p, k)
    ensures var after, n := Do(p, EndedOp, []), |p.queue|;
            if p.repeatMode == One then after == p.(currentTime := 0)
            else if k + 1 < n then Reaches(p, after, k + 1)
            else if p.repeatMode == All then Reaches(p, after, 0)
            else after == p.(isPlaying := false)
  {
    AdvanceFrom(p, k);
    hide Order, Advance, At, Reaches, Valid, StandsAt;
    forall i: nat | i < |p.queue| ensures Reaches(p, At(p, i), i) {
      AtReaches(p, i);
    }
  }

  /** Going back: the start of the track that plays after three seconds of it, else the one before in
      order; from the first, the last under repeat-all and otherwise the first again. */
  lemma PreviousMeaning(p: Player, k: nat)
    requires Valid(p) && StandsAt(p, k)
    ensures var after, n := Do(p, PreviousOp, []), |p.queue|;
            if p.currentTime > 3_000 then after == p.(currentTime := 0)
            else Reaches(p, after, if k > 0 then k - 1 else if p.repeatMode == All then n - 1 else 0)
  {
    AdvanceFrom(p, k);
    hide Order, Advance, At, Reaches, Valid, StandsAt;
    forall i: nat | i < |p.queue| ensures Reaches(p, At(p, i), i) {
      AtReaches(p, i);
    }
  }

  /** Shuffling changes the order alone: what was drawn, or the queue's own again. */
  lemma ShuffleMeaning(p: Player, enabled: bool, shuffled: seq<nat>)
    ensures var after := Do(p, ShuffleOp(enabled), shuffled);
            && after.queue == p.queue && after.currentIndex == p.currentIndex && SameSound(p, after)
            && after.repeatMode == p.repeatMode && after.shuffleEnabled == enabled
            && if enabled then Order(after) == shuffled
               else |Order(after)| == |p.queue| && forall i | 0 <= i < |p.queue| :: Order(after)[i] == i
  {
  }

  /** Pausing, going on, seeking and the repeat mode change just that; going on needs a current track, and with
      one it undoes pausing. */
  lemma ControlsMeaning(p: Player, mode: RepeatMode, now: int)
    ensures Do(p, PauseOp, []) == p.(isPlaying := false)
    ensures Do(Do(p, PauseOp, []), ResumeOp, []) == p.(isPlaying := CurrentTrack(p).Some?)
    ensures SameModes(p, Do(p, TimeOp(now), [])) && Do(p, TimeOp(now), []).currentTime == now
    ensures CurrentTrack(Do(p, TimeOp(now), [])) == CurrentTrack(p) && Order(Do(p, TimeOp(now), [])) == Order(p)
    ensures SameSound(p, Do(p, RepeatOp(mode), [])) && Do(p, RepeatOp(mode), []).repeatMode == mode
    ensures Order(Do(p, RepeatOp(mode), [])) == Order(p)
  {
  }

  // ---------------------------------------------------------------------------------------------
  // Where entries go
  // ---------------------------------------------------------------------------------------------

  /** The indices in [lo, hi) that are in `s`, or outside it. */
  ghost function Chosen(s: set<nat>, wanted: bool, lo: nat, hi: nat): set<nat>
  {
    set i: nat | lo <= i < hi && (i in s) == wanted
  }

  lemma ChosenStep(s: set<nat>, wanted: bool, lo: nat, hi: nat)
    requires lo < hi
    ensures |Chosen(s, wanted, lo, hi)| == |Chosen(s, wanted, lo, hi - 1)| + if (hi - 1 in s) == wanted then 1 else 0
  {
    var before := Chosen(s, wanted, lo, hi - 1);
    assert Chosen(s, wanted, lo, hi) == if (hi - 1 in s) == wanted then before + {hi - 1} else before;
  }

  /** The entries selected: as many as the indices, each at the number of those before it. */
  lemma {:induction false} SelectPlaces<T>(q: seq<T>, s: set<nat>, wanted: bool, lo: nat, hi: nat)
    requires lo <= hi <= |q|
    ensures |Select(q, s, wanted, lo, hi)| == |Chosen(s, wanted, lo, hi)|
    ensures forall i: nat | lo <= i < hi && (i in s) == wanted ::
              var place := |Chosen(s, wanted, lo, i)|;
              place < |Select(q, s, wanted, lo, hi)| && Select(q, s, wanted, lo, hi)[place] == q[i]
    decreases hi - lo
  {
    if lo == hi {
      assert Chosen(s, wanted, lo, hi) == {};
    } else {
      SelectPlaces(q, s, wanted, lo, hi - 1);
      ChosenStep(s, wanted, lo, hi);
      hide Chosen;
    }
  }

  /** Removing: an entry that stays goes to the number of those before it that stay. */
  lemma RemovePlaces(p: Player, offsets: set<nat>, shuffled: seq<nat>, i: nat)
    requires i < |p.queue| && i !in offsets
    ensures var after := Do(p, RemoveOp(offsets), shuffled).queue;
            var place := |Chosen(offsets, false, 0, i)|;
            && |after| == |Chosen(offsets, false, 0, |p.queue|)|
            && place < |after| && after[place] == p.queue[i]
  {
    SelectPlaces(p.queue, offsets, false, 0, |p.queue|);
  }

  /** Where a move takes entry `i`: those that stay keep their order before and behind the gap at `to`,
      those that move go into it in their order. */
  ghost function Place(from: set<nat>, to: nat, n: nat, i: nat): nat
  {
    if i in from then |Chosen(from, false, 0, to)| + |Chosen(from, true, 0, i)|
    else if i < to then |Chosen(from, false, 0, i)|
    else |Chosen(from, false, 0, to)| + |Chosen(from, true, 0, n)| + |Chosen(from, false, to, i)|
  }

  lemma MovedPlaces<T>(q: seq<T>, from: set<nat>, to: nat, i: nat)
    requires to <= |q| && i < |q|
    ensures |Moved(q, from, to)| == |q|
    ensures Place(from, to, |q|, i) < |q| && Moved(q, from, to)[Place(from, to, |q|, i)] == q[i]
  {
    MoveKeepsTracks(q, from, to);
    SelectPlaces(q, from, false, 0, to);
    SelectPlaces(q, from, true, 0, |q|);
    SelectPlaces(q, from, false, to, |q|);
    hide Select, Chosen;
  }

  /** A track queued behind the current one, or at the end, is there; what was queued keeps its order around
      it, so that removing it gives the queue back; and what is heard goes on. With nothing playing it starts. */
  lemma QueuedThere(p: Player, track: Track, shuffled: seq<nat>)
    requires Valid(p)
    ensures var next, last := Do(p, PlayNextOp(track), shuffled), Do(p, AddOp(track), shuffled);
            if p.currentIndex.None? then
              next.queue == [track] && Starts(next, track) && last.queue == [track] && Starts(last, track)
            else
              var k := p.currentIndex.value;
              && |next.queue| == |p.queue| + 1 && next.queue[k + 1] == track && SameSound(p, next)
              && |last.queue| == |p.queue| + 1 && last.queue[|p.queue|] == track && SameSound(p, last)
              && SameModes(p, next) && SameModes(p, last)
  {
  }

  lemma {:induction false} SelectAll<T>(q: seq<T>, s: set<nat>, lo: nat, hi: nat)
    requires lo <= hi <= |q| && forall i: nat | lo <= i < hi :: i !in s
    ensures Select(q, s, false, lo, hi) == q[lo..hi]
    decreases hi - lo
  {
    if lo < hi {
      SelectAll(q, s, lo, hi - 1);
      SelectLast(q, s, false, lo, hi);
      hide Select;
      SliceSnoc(q, lo, hi);
    }
  }

  lemma SelectWithout<T>(q: seq<T>, at: nat)
    requires at < |q|
    ensures Select(q, {at}, false, 0, |q|) == q[..at] + q[at + 1..]
  {
    hide Select;
    SelectSplits(q, {at}, false, 0, at, |q|);
    SelectSplits(q, {at}, false, at, at + 1, |q|);
    SelectAll(q, {at}, 0, at);
    SelectAll(q, {at}, at + 1, |q|);
    OneDropped(q, at);
    assert q[0..at] == q[..at] && q[at + 1..|q|] == q[at + 1..] && [] + q[at + 1..] == q[at + 1..];
  }

  lemma OneDropped<T>(q: seq<T>, at: nat)
    requires at < |q|
    ensures Select(q, {at}, false, at, at + 1) == []
  {
    assert Select(q, {at}, false, at, at) == [];
  }

  lemma RemovedQueue(p: Player, at: nat, shuffled: seq<nat>)
    requires at < |p.queue|
    ensures Do(p, RemoveOp({at}), shuffled).queue == p.queue[..at] + p.queue[at + 1..]
  {
    SelectWithout(p.queue, at);
    hide Select;
  }

  lemma QueuedQueues(p: Player, track: Track, shuffled: seq<nat>)
    requires Valid(p) && p.currentIndex.Some?
    ensures var k, q := p.currentIndex.value, p.queue;
            && Do(p, PlayNextOp(track), shuffled).queue == q[..k + 1] + [track] + q[k + 1..]
            && Do(p, AddOp(track), shuffled).queue == q + [track]
  {
  }

  /** Removing what was queued undoes the queueing. */
  lemma RemoveUndoesQueueing(p: Player, track: Track, shuffled: seq<nat>, again: seq<nat>)
    requires Valid(p) && p.currentIndex.Some?
    ensures var k := p.currentIndex.value;
            && Do(Do(p, PlayNextOp(track), shuffled), RemoveOp({k + 1}), again).queue == p.queue
            && Do(Do(p, AddOp(track), shuffled), RemoveOp({|p.queue|}), again).queue == p.queue
  {
    hide Do;
    QueuedQueues(p, track, shuffled);
    var k := p.currentIndex.value;
    var next, last := Do(p, PlayNextOp(track), shuffled), Do(p, AddOp(track), shuffled);
    RemovedQueue(next, k + 1, again);
    RemovedQueue(last, |p.queue|, again);
    assert next.queue[..k + 1] + next.queue[k + 2..] == p.queue;
    assert last.queue[..|p.queue|] + last.queue[|p.queue| + 1..] == p.queue;
  }
}
