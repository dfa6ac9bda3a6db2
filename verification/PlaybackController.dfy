/** The playback controller as the object it is: fields changed method by method. */
module PlaybackController {
  import opened Common
  import P = Player

  /** `shuffled` stands for what `shuffle()` draws when the method asks for it. */
  class PlaybackController {
    var queue: seq<P.Track>
    var currentIndex: Option<nat>
    var isPlaying: bool
    var currentTime: int
    var shuffleEnabled: bool
    var repeatMode: P.RepeatMode
    var shuffleOrder: seq<nat>

    function State(): P.Player
      reads this
    {
      P.Player.Player(queue, currentIndex, shuffleEnabled, repeatMode, shuffleOrder, isPlaying, currentTime)
    }

    /** What the draw must be for an operation: some order of the indices of the queue it leaves. */
    ghost predicate Draws(op: P.Op, shuffled: seq<nat>)
      reads this
    {
      P.LegalOp(State(), op) && P.IsPermutation(shuffled, P.LengthAfter(State(), op))
    }

    constructor ()
      ensures State() == P.FRESH && P.Valid(State())
    {
      queue, currentIndex, isPlaying, currentTime := [], None, false, 0;
      shuffleEnabled, repeatMode, shuffleOrder := false, P.Off, [];
    }

    method ReindexShuffleOrder(shuffled: seq<nat>)
      modifies this`shuffleOrder
      ensures State() == P.Reindex(old(State()), shuffled)
    {
      shuffleOrder := P.Indices(|queue|);
      if shuffleEnabled {
        shuffleOrder := shuffled;
      }
    }

    method LoadCurrentItem(autoplay: bool)
      modifies this`currentTime, this`isPlaying
      ensures State() == P.Load(old(State()), autoplay)
    {
      if currentIndex.Some? && currentIndex.value < |queue| {
        currentTime := 0;
        if autoplay {
          isPlaying := true;
        }
      }
    }

    method PlayTracks(tracks: seq<P.Track>, startIndex: nat, shuffled: seq<nat>)
      requires P.Valid(State()) && Draws(P.PlayOp(tracks, startIndex), shuffled)
      modifies this
      ensures State() == P.Do(old(State()), P.PlayOp(tracks, startIndex), shuffled) && P.Valid(State())
    {
      P.StepKeepsValid(State(), P.PlayOp(tracks, startIndex), shuffled);
      if startIndex < |tracks| {
        queue := tracks;
        ReindexShuffleOrder(shuffled);
        currentIndex := Some(startIndex);
        LoadCurrentItem(true);
      }
    }

    method Pause()
      modifies this`isPlaying
      ensures State() == P.Do(old(State()), P.PauseOp, [])
    {
      isPlaying := false;
    }

    method Resume()
      modifies this`isPlaying
      ensures State() == P.Do(old(State()), P.ResumeOp, [])
    {
      if currentIndex.Some? && currentIndex.value < |queue| {
        isPlaying := true;
      }
    }

    method Seek(time: int)
      modifies this`currentTime
      ensures State() == P.Do(old(State()), P.TimeOp(time), [])
    {
      currentTime := time;
    }

    method Advance(delta: int, wrapping: bool)
      requires P.Valid(State()) && (delta == 1 || delta == -1) && wrapping == repeatMode.All?
      modifies this`currentIndex, this`currentTime, this`isPlaying
      ensures State() == P.Advance(old(State()), delta == 1) && P.Valid(State())
    {
      P.AdvanceKeepsValid(State(), delta == 1);
      hide P.Valid, P.FirstIndex, P.IsPermutation, P.Order;
      if currentIndex.None? || queue == [] {
        return;
      }
      var order := P.Order(State());
      var position := P.FirstIndex(order, currentIndex.value);
      if position.None? {
        return;
      }
      var nextPosition := position.value + delta;
      if nextPosition < 0 {
        nextPosition := if wrapping then |order| - 1 else 0;
      } else if nextPosition >= |order| {
        if wrapping {
          nextPosition := 0;
        } else {
          Pause();
          return;
        }
      }
      currentIndex := Some(order[nextPosition]);
      LoadCurrentItem(isPlaying);
    }

    method SkipToNext()
      requires P.Valid(State())
      modifies this
      ensures State() == P.Do(old(State()), P.NextOp, []) && P.Valid(State())
    {
      Advance(1, repeatMode.All?);
    }

    method SkipToPrevious()
      requires P.Valid(State())
      modifies this
      ensures State() == P.Do(old(State()), P.PreviousOp, []) && P.Valid(State())
    {
      if currentTime > 3000 {
        Seek(0);
        return;
      }
      Advance(-1, repeatMode.All?);
    }

    method HandlePlaybackEnded()
      requires P.Valid(State())
      modifies this
      ensures State() == P.Do(old(State()), P.EndedOp, []) && P.Valid(State())
    {
      if repeatMode.One? {
        Seek(0);
        return;
      }
      SkipToNext();
    }

    method SetShuffle(enabled: bool, shuffled: seq<nat>)
      requires P.Valid(State()) && Draws(P.ShuffleOp(enabled), shuffled)
      modifies this
      ensures State() == P.Do(old(State()), P.ShuffleOp(enabled), shuffled) && P.Valid(State())
    {
      P.StepKeepsValid(State(), P.ShuffleOp(enabled), shuffled);
      shuffleEnabled := enabled;
      ReindexShuffleOrder(shuffled);
    }

    method SetRepeatMode(mode: P.RepeatMode)
      modifies this`repeatMode
      ensures State() == P.Do(old(State()), P.RepeatOp(mode), [])
    {
      repeatMode := mode;
    }

    method PlayQueueItem(index: nat)
      requires P.Valid(State())
      modifies this
      ensures State() == P.Do(old(State()), P.ItemOp(index), []) && P.Valid(State())
    {
      if index < |queue| {
        currentIndex := Some(index);
        LoadCurrentItem(true);
      }
    }

    method PlayNext(track: P.Track, shuffled: seq<nat>)
      requires P.Valid(State()) && Draws(P.PlayNextOp(track), shuffled)
      modifies this
      ensures State() == P.Do(old(State()), P.PlayNextOp(track), shuffled) && P.Valid(State())
    {
      P.StepKeepsValid(State(), P.PlayNextOp(track), shuffled);
      if currentIndex.None? {
        PlayTracks([track], 0, shuffled);
        return;
      }
      queue := queue[..currentIndex.value + 1] + [track] + queue[currentIndex.value + 1..];
      ReindexShuffleOrder(shuffled);
    }

    method AddToQueue(track: P.Track, shuffled: seq<nat>)
      requires P.Valid(State()) && Draws(P.AddOp(track), shuffled)
      modifies this
      ensures State() == P.Do(old(State()), P.AddOp(track), shuffled) && P.Valid(State())
    {
      P.StepKeepsValid(State(), P.AddOp(track), shuffled);
      if currentIndex.None? {
        PlayTracks([track], 0, shuffled);
        return;
      }
      queue := queue + [track];
      ReindexShuffleOrder(shuffled);
    }

    method MoveQueueItems(source: set<nat>, destination: nat, shuffled: seq<nat>)
      requires P.Valid(State()) && Draws(P.MoveOp(source, destination), shuffled)
      modifies this
      ensures State() == P.Do(old(State()), P.MoveOp(source, destination), shuffled) && P.Valid(State())
    {
      P.StepKeepsValid(State(), P.MoveOp(source, destination), shuffled);
      var playing := P.CurrentTrack(State());
      queue := P.Moved(queue, source, destination);
      if playing.Some? {
        currentIndex := P.IndexOfId(queue, playing.value.id);
      }
      ReindexShuffleOrder(shuffled);
    }

    method RemoveQueueItems(offsets: set<nat>, shuffled: seq<nat>)
      requires P.Valid(State()) && Draws(P.RemoveOp(offsets), shuffled)
      modifies this
      ensures State() == P.Do(old(State()), P.RemoveOp(offsets), shuffled) && P.Valid(State())
    {
      P.StepKeepsValid(State(), P.RemoveOp(offsets), shuffled);
      var playing := P.CurrentTrack(State());
      queue := P.Select(queue, offsets, false, 0, |queue|);
      var found := if playing.Some? then P.IndexOfId(queue, playing.value.id) else None;
      if found.Some? {
        currentIndex := found;
      } else {
        currentIndex := None;
        isPlaying := false;
      }
      ReindexShuffleOrder(shuffled);
    }
  }
}
