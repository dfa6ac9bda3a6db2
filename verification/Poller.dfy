/** The kqueue poller: interest bookkeeping and the merge of raw kernel events into one per descriptor. */
module Poller {

  datatype Interest = Interest(read: bool, write: bool)

  const NO_INTEREST := Interest(false, false)

  datatype PollEvent = PollEvent(fd: int, readable: bool, writable: bool, error: bool, hangup: bool)

  datatype Filter = ReadFilter | WriteFilter

  datatype RawEvent = RawEvent(ident: int, filter: Filter, eof: bool, error: bool)

  /** The merged event of `fd`: each flag is set iff some raw event of that descriptor sets it. */
  ghost predicate Merges(raw: seq<RawEvent>, e: PollEvent)
  {
    && (exists i :: 0 <= i < |raw| && raw[i].ident == e.fd)
    && (e.readable <==> exists i :: 0 <= i < |raw| && raw[i].ident == e.fd && raw[i].filter == ReadFilter)
    && (e.writable <==> exists i :: 0 <= i < |raw| && raw[i].ident == e.fd && raw[i].filter == WriteFilter)
    && (e.hangup <==> exists i :: 0 <= i < |raw| && raw[i].ident == e.fd && raw[i].eof)
    && (e.error <==> exists i :: 0 <= i < |raw| && raw[i].ident == e.fd && raw[i].error)
  }

  predicate DistinctFds(events: seq<PollEvent>)
  {
    forall i, j | 0 <= i < j < |events| :: events[i].fd != events[j].fd
  }

  ghost predicate Reports(events: seq<PollEvent>, fd: int)
  {
    exists e :: e in events && e.fd == fd
  }

  function Absorb(e: PollEvent, r: RawEvent): PollEvent
  {
    PollEvent(r.ident, e.readable || r.filter == ReadFilter, e.writable || r.filter == WriteFilter,
              e.error || r.error, e.hangup || r.eof)
  }

  lemma AbsorbMerges(raw: seq<RawEvent>, n: nat, e: PollEvent)
    requires n < |raw|
    requires e.fd == raw[n].ident
    requires Merges(raw[..n], e) ||
             (e == PollEvent(e.fd, false, false, false, false) && forall i | 0 <= i < n :: raw[i].ident != e.fd)
    ensures Merges(raw[..n + 1], Absorb(e, raw[n]))
  {
    assert forall i | 0 <= i < n :: raw[..n + 1][i] == raw[..n][i] == raw[i];
    assert raw[..n + 1][n] == raw[n];
  }

  lemma OthersMerge(raw: seq<RawEvent>, n: nat, e: PollEvent)
    requires n < |raw| && e.fd != raw[n].ident && Merges(raw[..n], e)
    ensures Merges(raw[..n + 1], e)
  {
    assert forall i | 0 <= i < n :: raw[..n + 1][i] == raw[..n][i] == raw[i];
    assert raw[..n + 1][n] == raw[n];
  }

  /** The merge loop of `wait`. */
  method MergeEvents(raw: seq<RawEvent>) returns (merged: map<int, PollEvent>)
    ensures forall fd :: fd in merged <==> exists i :: 0 <= i < |raw| && raw[i].ident == fd
    ensures forall fd | fd in merged :: merged[fd].fd == fd && Merges(raw, merged[fd])
  {
    merged := map[];
    for n := 0 to |raw|
      invariant forall fd :: fd in merged <==> exists i :: 0 <= i < n && raw[i].ident == fd
      invariant forall fd | fd in merged :: merged[fd].fd == fd && Merges(raw[..n], merged[fd])
    {
      var fd := raw[n].ident;
      var e := if fd in merged then merged[fd] else PollEvent(fd, false, false, false, false);
      AbsorbMerges(raw, n, e);
      ghost var before := merged;
      merged := merged[fd := Absorb(e, raw[n])];
      forall other | other in merged ensures merged[other].fd == other && Merges(raw[..n + 1], merged[other]) {
        if other != fd {
          OthersMerge(raw, n, before[other]);
        }
      }
    }
    assert raw[..|raw|] == raw;
  }

  /** What `wait` returns: one event per ready descriptor, in no particular order. */
  method WaitResult(raw: seq<RawEvent>) returns (events: seq<PollEvent>)
    ensures DistinctFds(events)
    ensures forall e :: e in events ==> Merges(raw, e)
    ensures forall i | 0 <= i < |raw| :: Reports(events, raw[i].ident)
  {
    var merged := MergeEvents(raw);
    events := [];
    var left := merged.Keys;
    while left != {}
      invariant left <= merged.Keys
      invariant forall e :: e in events ==> e.fd in merged && e == merged[e.fd] && e.fd !in left
      invariant forall fd | fd in merged && fd !in left :: merged[fd] in events
      invariant DistinctFds(events)
      decreases left
    {
      var fd :| fd in left;
      events := events + [merged[fd]];
      left := left - {fd};
    }
    forall i | 0 <= i < |raw| ensures Reports(events, raw[i].ident) {
      assert merged[raw[i].ident] in events;
    }
  }

  /** The filters a table of interests should have registered with the kernel. */
  ghost function Filters(interest: map<int, Interest>): iset<(int, Filter)>
  {
    iset fd: int, f: Filter | fd in interest && (if f == ReadFilter then interest[fd].read else interest[fd].write) :: (fd, f)
  }

  /** As long as the kernel raises only filters that are registered, a descriptor is reported as readable or
      writable only to who asked for it. */
  lemma EventsWereAskedFor(interest: map<int, Interest>, raw: seq<RawEvent>, e: PollEvent)
    requires forall i | 0 <= i < |raw| :: (raw[i].ident, raw[i].filter) in Filters(interest)
    requires Merges(raw, e)
    ensures e.fd in interest && (e.readable ==> interest[e.fd].read) && (e.writable ==> interest[e.fd].write)
  {
    var i :| 0 <= i < |raw| && raw[i].ident == e.fd;
    assert (raw[i].ident, raw[i].filter) in Filters(interest);
  }

  class KqueuePoller {
    var interest: map<int, Interest>
    /** The filters the kernel has, as the change list maintains them. */
    ghost var registered: iset<(int, Filter)>

    ghost predicate Valid()
      reads this
    {
      registered == Filters(interest)
    }

    constructor ()
      ensures Valid() && interest == map[]
    {
      interest, registered := map[], iset{};
    }

    /** The change list: only the filters that differ are added or deleted. */
    method UpdateInterest(fd: int, previous: Interest, wanted: Interest)
      modifies `registered
      ensures registered ==
              iset x | (x in old(registered) &&
                        !(x == (fd, ReadFilter) && previous.read && !wanted.read) &&
                        !(x == (fd, WriteFilter) && previous.write && !wanted.write)) ||
                       (x == (fd, ReadFilter) && wanted.read && !previous.read) ||
                       (x == (fd, WriteFilter) && wanted.write && !previous.write)
    {
      if wanted.read != previous.read {
        registered := if wanted.read then registered + iset{(fd, ReadFilter)} else registered - iset{(fd, ReadFilter)};
      }
      if wanted.write != previous.write {
        registered := if wanted.write then registered + iset{(fd, WriteFilter)} else registered - iset{(fd, WriteFilter)};
      }
    }

    method Add(fd: int, wantRead: bool, wantWrite: bool)
      requires Valid() && fd !in interest
      modifies this
      ensures Valid() && interest == old(interest)[fd := Interest(wantRead, wantWrite)]
    {
      UpdateInterest(fd, NO_INTEREST, Interest(wantRead, wantWrite));
      interest := interest[fd := Interest(wantRead, wantWrite)];
    }

    method Modify(fd: int, wantRead: bool, wantWrite: bool)
      requires Valid()
      modifies this
      ensures Valid() && interest == old(interest)[fd := Interest(wantRead, wantWrite)]
    {
      var previous := if fd in interest then interest[fd] else NO_INTEREST;
      UpdateInterest(fd, previous, Interest(wantRead, wantWrite));
      interest := interest[fd := Interest(wantRead, wantWrite)];
    }

    method Remove(fd: int)
      requires Valid()
      modifies this
      ensures Valid() && interest == old(interest) - {fd}
    {
      if fd !in interest { return; }
      UpdateInterest(fd, interest[fd], NO_INTEREST);
      interest := interest - {fd};
    }
  }
}
