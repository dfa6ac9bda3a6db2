/** Runs of the whole server: that a served request is reached, and what a client that does not stop at
    one request can bring about. */
module ServerRuns {
  import opened Common
  import opened HttpParser
  import opened Fragmentation
  import opened RequestRoundTrip
  import opened ByteBuffer
  import opened TcpConnection
  import opened HttpResponse
  import opened Router
  import opened Poller
  import opened EventLoop
  import opened AnswerHistory
  import opened WholeServer

  // ---------------------------------------------------------------------------------------------
  // The callback on a connection in whatever state
  // ---------------------------------------------------------------------------------------------

  /** The response to a parse result, the order its headers are walked in, and whether its body streams. */
  ghost function KeysOf(env: Env, status: ParseResult): (keys: seq<string>)
    requires ValidEnv(env)
    ensures forall k | k in keys :: k in WireHeaders(AnswerOf(env, status))
  {
    AnswerIsValid(env, status);
    env.order(WireHeaders(AnswerOf(env, status)))
  }

  ghost function PartOf(env: Env, status: ParseResult): string
    requires ValidEnv(env)
  {
    QueuedPart(AnswerOf(env, status), KeysOf(env, status), IsHead(status))
  }

  predicate Streams(env: Env, status: ParseResult)
  {
    AnswerOf(env, status).body.Streaming? && !IsHead(status)
  }

  /** The comment in the callback says that bytes after the first request are never read. They are read on
      every event. While they complete nothing, what is pending stays as it is. When they complete a request,
      or are refused, another answer is queued: behind the earlier ones if all their bytes are queued; in
      front of what an earlier stream has still to deliver if it is in memory; in place of that if it streams
      itself. */
  lemma SecondRequestIsAnswered(env: Env, l: Link, p: Parser)
    requires ValidEnv(env) && l.conn.Valid()
    ensures var status := ParseNext(env.limits, p.Fed(l.conn.inbound.Readable())).status;
            var (m, q) := OnReadable(env, l, p);
            var unread, added := l.conn.Unread(), PartOf(env, status);
            && m.conn.wire == l.conn.wire && q == ParseNext(env.limits, p.Fed(l.conn.inbound.Readable())).p
            && if status.NeedMoreData? then
                 m.conn.Queued() == l.conn.Queued() && m.conn.stream == l.conn.stream && m.answers == l.answers
               else
                 && m.conn.Queued() == l.conn.Queued() + added && m.answers == l.answers + [Answer(status, |l.received|, q, AnswerBytes(env, status))]
                 && (m.spliced <==> l.spliced || unread != "")
                 && AnswerBytes(env, status) == added + (if Streams(env, status) then m.conn.Unread() else "")
                 && (!Streams(env, status) ==> m.conn.Unread() == unread)
                 && (m.conn.Pending() == l.conn.Pending() + AnswerBytes(env, status) <==>
                     if Streams(env, status) then unread == "" else unread + added == added + unread)
                 && (m.conn.Pending() == l.conn.Pending() <==> Streams(env, status) && unread == AnswerBytes(env, status))
  {
    hide ParseNext, AnswerOf, IsHead, WireHeaders, Buf.Consumed, WriteResponseOf, ResponseBytes, QueuedPart,
         Conn.Unread, Conn.Pending, Enumerates, Dispatch;
    var view := l.conn.inbound.Readable();
    var status := ParseNext(env.limits, p.Fed(view)).status;
    var r := AnswerOf(env, status);
    var keys := KeysOf(env, status);
    AnswerIsValid(env, status);
    var conn := l.conn.(inbound := l.conn.inbound.Consumed(|view|));
    SameOutput(l.conn, conn);
    WriteResponseQueues(conn, r, keys, IsHead(status));
    InOrder(conn, r, keys, IsHead(status));
    ResponseParts(r, keys, IsHead(status));
    if !status.NeedMoreData? {
      PendingAgain(l.conn, WriteResponseOf(conn, r, keys, IsHead(status)), PartOf(env, status));
    }
  }

  lemma PendingAgain(c: Conn, d: Conn, added: string)
    requires c.Valid() && d.Valid() && d.Queued() == c.Queued() + added
    ensures d.Pending() == c.Pending() <==> added + d.Unread() == c.Unread()
  {
    hide Conn.Unread;
    assert c.Queued() + added + d.Unread() == c.Queued() + (added + d.Unread());
    CommonFront(c.Queued(), added + d.Unread(), c.Unread());
  }

  lemma CommonFront(front: string, a: string, b: string)
    ensures front + a == front + b <==> a == b
  {
    if front + a == front + b {
      assert a == (front + a)[|front|..] && b == (front + b)[|front|..];
    }
  }

  lemma SameOutput(c: Conn, d: Conn)
    requires c.Valid() && d.Valid() && d == c.(inbound := d.inbound)
    ensures d.Queued() == c.Queued() && d.Unread() == c.Unread() && d.Pending() == c.Pending()
  {
  }

  // ---------------------------------------------------------------------------------------------
  // Steps and runs
  // ---------------------------------------------------------------------------------------------

  const REFUSED := FlushInput([], SendAgain)

  /** Bytes arrive, and the kernel takes none. */
  function ReadEvent(fd: int, data: string): Step
  {
    Event(PollEvent(fd, true, false, false, false), Kernel(Bytes(data), REFUSED, REFUSED))
  }

  function Reads(fd: int, pieces: seq<string>): seq<Step>
  {
    if pieces == [] then [] else [ReadEvent(fd, pieces[0])] + Reads(fd, pieces[1..])
  }

  /** The connection is writable, and the kernel takes a byte. */
  function DrainEvent(fd: int): Step
  {
    Event(PollEvent(fd, false, true, false, false), Kernel(RecvAgain, REFUSED, FlushInput([], Accepted(1))))
  }

  function DrainEvents(fd: int, n: nat): (steps: seq<Step>)
    ensures |steps| == n && (forall j | 0 <= j < n :: steps[j] == DrainEvent(fd)) && EventsOn(steps, fd) == n
  {
    if n == 0 then [] else [DrainEvent(fd)] + DrainEvents(fd, n - 1)
  }

  lemma {:induction false} RunAppends(env: Env, s: Server, a: seq<Step>, b: seq<Step>)
    requires Good(env, s) && LegalRun(env, s, a) && LegalRun(env, RunOf(env, s, a), b)
    ensures LegalRun(env, s, a + b) && RunOf(env, s, a + b) == RunOf(env, RunOf(env, s, a), b)
    decreases |a|
  {
    if a == [] {
      assert a + b == b;
    } else {
      hide Good, StepOf, LegalStep;
      GoodIsValid(env, s);
      StepKeepsGood(env, s, a[0]);
      RunAppends(env, StepOf(env, s, a[0]), a[1..], b);
      assert (a + b)[1..] == a[1..] + b;
    }
  }

  lemma RunOne(env: Env, s: Server, step: Step)
    requires Good(env, s) && LegalStep(s, step)
    ensures forall f | f in s.connections :: s.connections[f].conn.Valid()
    ensures LegalRun(env, s, [step]) && RunOf(env, s, [step]) == StepOf(env, s, step) && Good(env, StepOf(env, s, step))
  {
    hide Good, StepOf, LegalStep;
    GoodIsValid(env, s);
    StepKeepsGood(env, s, step);
  }

  lemma RefusedFlush(c: Conn)
    requires c.Valid()
    ensures var d := FlushOf(c, REFUSED.gots, REFUSED.send);
            && d.wire == c.wire && d.error == c.error && d.closing == c.closing && d.Pending() == c.Pending()
            && |c.Queued()| <= |d.Queued()| <= Max(|c.Queued()|, 2 * READ_CHUNK - 1)
            && (c.stream.None? ==> d.stream.None?)
  {
    hide Refill, Conn.Pending;
    RefillKeeps(c, REFUSED.gots);
  }

  /** An answered connection of these runs has bytes queued. */
  predicate Full(l: Link)
  {
    l.conn.Valid() && (l.answers != [] ==> l.conn.Queued() != "")
  }

  /** What such an event leaves: the callback's connection, refilled if anything is pending. */
  function Refilled(m: Link): (n: Link)
    requires m.conn.Valid()
    ensures n.conn.Valid()
  {
    if m.conn.HasPendingWrites() then FlushLink(m, REFUSED) else m
  }

  lemma CallbackFills(env: Env, l: Link, p: Parser)
    requires ValidEnv(env) && Full(l) && (l.answers == [] ==> !l.conn.HasPendingWrites())
    ensures var (m, _) := OnReadable(env, l, p);
            && Full(m) && (m.answers == [] ==> !m.conn.HasPendingWrites()) && m.received == l.received
            && |m.conn.Queued()| >= |l.conn.Queued()| + |m.answers| - |l.answers|
  {
    SecondRequestIsAnswered(env, l, p);
    PartIsNotEmpty(env, ParseNext(env.limits, p.Fed(l.conn.inbound.Readable())).status);
    hide ParseNext, AnswerOf, IsHead, WireHeaders, Buf.Consumed, WriteResponseOf, Dispatch, PartOf;
  }

  lemma PartIsNotEmpty(env: Env, status: ParseResult)
    requires ValidEnv(env)
    ensures PartOf(env, status) != ""
  {
    hide AnswerOf, HeaderLines;
  }

  /** One event in which bytes arrive and none are taken: the connection stays, with the callback's result. */
  lemma ReadEventStep(env: Env, s: Server, fd: int, data: string)
    requires Good(env, s) && fd in s.connections && 0 < |data| <= READ_CHUNK && Full(s.connections[fd])
    ensures LegalStep(s, ReadEvent(fd, data)) && forall f | f in s.connections :: s.connections[f].conn.Valid()
    ensures var l := s.connections[fd];
            var read := l.(conn := ReadIntoOf(l.conn, Bytes(data)), received := l.received + data);
            var (m, q) := OnReadable(env, read, ParserOf(s, l.addr));
            var t := StepOf(env, s, ReadEvent(fd, data));
            && m.conn.Valid() && fd in t.connections && t.connections[fd] == Refilled(m) && ParserOf(t, l.addr) == q
            && Full(Refilled(m)) && Refilled(m).answers == m.answers && Refilled(m).received == l.received + data
            && Refilled(m).addr == l.addr
            && |Refilled(m).conn.Queued()| >= |l.conn.Queued()| + |m.answers| - |l.answers|
            && t.listeners == s.listeners && t.closed == s.closed
  {
    GoodIsValid(env, s);
    RegisteredIsOk(env, s, fd);
    hide Good, OnReadable, Full, Refilled, LinkOk, ReadEvent, Serve;
    var l := s.connections[fd];
    var p := ParserOf(s, l.addr);
    ServedRead(env, l, p, fd, data);
    var read := l.(conn := ReadIntoOf(l.conn, Bytes(data)), received := l.received + data);
    var (m, q) := OnReadable(env, read, p);
    ReadEventIsLegal(s, fd, data);
    KeptByStep(env, s, ReadEvent(fd, data), Refilled(m), q);
  }

  lemma RegisteredIsOk(env: Env, s: Server, fd: int)
    requires Good(env, s) && fd in s.connections
    ensures var l := s.connections[fd]; ValidEnv(env) && LinkOk(env, l, ParserOf(s, l.addr)) && !l.conn.error && fd !in s.listeners
  {
    assert Registered(env, s, fd);
  }

  lemma ReadEventIsLegal(s: Server, fd: int, data: string)
    requires fd !in s.listeners && 0 < |data| <= READ_CHUNK
    ensures LegalStep(s, ReadEvent(fd, data)) && ReadEvent(fd, data).Event? && ReadEvent(fd, data).event.fd == fd
    ensures Feeds(ReadEvent(fd, data).event, ReadEvent(fd, data).kernel)
  {
  }

  /** What the step does with a connection that stays. */
  lemma KeptByStep(env: Env, s: Server, step: Step, n: Link, q: Parser)
    requires ValidEnv(env) && forall f | f in s.connections :: s.connections[f].conn.Valid()
    requires step.Event? && step.event.fd in s.connections && Feeds(step.event, step.kernel) && n.conn.Valid()
    requires var l := s.connections[step.event.fd];
             n.addr == l.addr && Serve(env, l, ParserOf(s, l.addr), step.event, step.kernel) == Served(n, q, Keep)
    ensures var t := StepOf(env, s, step);
            && step.event.fd in t.connections && t.connections[step.event.fd] == n && ParserOf(t, n.addr) == q
            && t.listeners == s.listeners && t.closed == s.closed
  {
    hide Serve;
  }

  /** The event as it is worked off. */
  lemma ServedRead(env: Env, l: Link, p: Parser, fd: int, data: string)
    requires ValidEnv(env) && LinkOk(env, l, p) && !l.conn.error && Full(l) && 0 < |data| <= READ_CHUNK
    ensures var read := l.(conn := ReadIntoOf(l.conn, Bytes(data)), received := l.received + data);
            var (m, q) := OnReadable(env, read, p);
            var n := Refilled(m);
            && m.conn.Valid() && n.conn.Valid() && Full(n) && n.answers == m.answers && n.received == l.received + data
            && n.addr == l.addr && |n.conn.Queued()| >= |l.conn.Queued()| + |m.answers| - |l.answers|
            && Serve(env, l, p, ReadEvent(fd, data).event, ReadEvent(fd, data).kernel) == Served(n, q, Keep)
  {
    hide OnReadable, History, Delivered, FlushLink, Serve;
    var read := l.(conn := ReadIntoOf(l.conn, Bytes(data)), received := l.received + data);
    OnReadableOk(env, l, p, data);
    OnReadableKeepsName(env, read, p);
    SameOutput(l.conn, read.conn);
    CallbackFills(env, read, p);
    var (m, q) := OnReadable(env, read, p);
    RefillKeepsFull(m);
    ServedByRead(env, l, p, ReadEvent(fd, data).event, ReadEvent(fd, data).kernel);
  }

  lemma RefillKeepsFull(m: Link)
    requires Full(m)
    ensures var n := Refilled(m);
            && n == m.(conn := n.conn) && Full(n) && n.conn.error == m.conn.error && n.conn.closing == m.conn.closing
            && |n.conn.Queued()| >= |m.conn.Queued()| && n.conn.wire == m.conn.wire && n.conn.Pending() == m.conn.Pending()
  {
    hide FlushOf;
    RefusedFlush(m.conn);
  }

  lemma ServedByRead(env: Env, l: Link, p: Parser, e: PollEvent, k: Kernel)
    requires ValidEnv(env) && l.conn.Valid() && k.recv.Bytes? && k.first == REFUSED
    requires e.readable && !e.writable && !e.error && !e.hangup
    requires var (m, _) := OnReadable(env, l.(conn := ReadIntoOf(l.conn, k.recv), received := l.received + k.recv.data), p);
             !Refilled(m).conn.error && (Refilled(m).conn.closing ==> Refilled(m).conn.HasPendingWrites())
    ensures var (m, q) := OnReadable(env, l.(conn := ReadIntoOf(l.conn, k.recv), received := l.received + k.recv.data), p);
            Serve(env, l, p, e, k) == Served(Refilled(m), q, Keep)
  {
    hide OnReadable, FlushOf;
  }

  lemma RunCons(env: Env, s: Server, step: Step, rest: seq<Step>)
    requires Good(env, s) && LegalStep(s, step) && forall f | f in s.connections :: s.connections[f].conn.Valid()
    requires Good(env, StepOf(env, s, step)) && LegalRun(env, StepOf(env, s, step), rest)
    ensures LegalRun(env, s, [step] + rest) && RunOf(env, s, [step] + rest) == RunOf(env, StepOf(env, s, step), rest)
  {
    hide Good, StepOf, LegalStep;
    assert ([step] + rest)[0] == step && ([step] + rest)[1..] == rest;
  }

  lemma RunNothing(env: Env, s: Server)
    requires Good(env, s)
    ensures LegalRun(env, s, []) && RunOf(env, s, []) == s
  {
    hide Good;
  }

  lemma ReadEventGrows(env: Env, s: Server, fd: int, data: string)
    requires Good(env, s) && fd in s.connections && 0 < |data| <= READ_CHUNK && Full(s.connections[fd])
    ensures LegalStep(s, ReadEvent(fd, data)) && forall f | f in s.connections :: s.connections[f].conn.Valid()
    ensures var t := StepOf(env, s, ReadEvent(fd, data));
            && Good(env, t) && fd in t.connections && Full(t.connections[fd]) && t.listeners == s.listeners
            && t.connections[fd].received == s.connections[fd].received + data
  {
    hide Good, Full, OnReadable, Refilled, StepOf, LegalStep;
    ReadEventStep(env, s, fd, data);
    StepKeepsGood(env, s, ReadEvent(fd, data));
  }

  /** The bytes of a client, cut anyhow, with the kernel taking none meanwhile. */
  lemma {:induction false} ReadsRun(env: Env, s: Server, fd: int, pieces: seq<string>)
    requires Good(env, s) && fd in s.connections && Full(s.connections[fd])
    requires forall i | 0 <= i < |pieces| :: 0 < |pieces[i]| <= READ_CHUNK
    ensures LegalRun(env, s, Reads(fd, pieces))
    ensures var t := RunOf(env, s, Reads(fd, pieces));
            && fd in t.connections && Full(t.connections[fd]) && t.listeners == s.listeners
            && t.connections[fd].received == s.connections[fd].received + Concat(pieces)
    decreases |pieces|
  {
    hide Good, StepOf, LegalStep, Full, ReadEvent, LegalRun, RunOf;
    if pieces == [] {
      RunNothing(env, s);
      assert s.connections[fd].received + "" == s.connections[fd].received;
    } else {
      GoodIsValid(env, s);
      var step := ReadEvent(fd, pieces[0]);
      ReadEventGrows(env, s, fd, pieces[0]);
      var t := StepOf(env, s, step);
      ReadsRun(env, t, fd, pieces[1..]);
      RunCons(env, s, step, Reads(fd, pieces[1..]));
      var before := s.connections[fd].received;
      assert (before + pieces[0]) + Concat(pieces[1..]) == before + Concat(pieces);
    }
  }

  // ---------------------------------------------------------------------------------------------
  // A request is served
  // ---------------------------------------------------------------------------------------------

  /** The server with its first connection. */
  function FirstConnection(listeners: set<int>, fd: int, addr: nat): Server
  {
    AcceptOf(Start(listeners), fd, addr)
  }

  lemma FirstConnectionIsGood(env: Env, listeners: set<int>, fd: int, addr: nat)
    requires ValidEnv(env) && fd !in listeners
    ensures var s := FirstConnection(listeners, fd, addr);
            && Good(env, s) && s.connections == map[fd := Link(0, addr, NEW_CONNECTION, "", [], false)]
            && ParserOf(s, addr) == Fresh("") && s.listeners == listeners && Full(s.connections[fd])
  {
    StartIsGood(env, listeners);
    AcceptKeepsGood(env, Start(listeners), fd, addr);
  }

  lemma FromFirstConnection(env: Env, listeners: set<int>, fd: int, addr: nat, rest: seq<Step>)
    requires ValidEnv(env) && fd !in listeners
    requires var s := FirstConnection(listeners, fd, addr); Good(env, s) && LegalRun(env, s, rest)
    ensures var steps := [Accept(fd, addr)] + rest;
            && Ran(env, listeners, steps) && Good(env, Start(listeners))
            && RunOf(env, Start(listeners), steps) == RunOf(env, FirstConnection(listeners, fd, addr), rest)
  {
    StartIsGood(env, listeners);
    hide Good, LegalRun, RunOf;
    RunCons(env, Start(listeners), Accept(fd, addr), rest);
  }

  lemma {:induction false} DrainsAreLegal(env: Env, s: Server, fd: int, n: nat)
    requires Good(env, s) && fd !in s.listeners
    ensures LegalRun(env, s, DrainEvents(fd, n))
    decreases n
  {
    hide Good, LegalRun, RunOf, Serve;
    if n == 0 {
      RunNothing(env, s);
    } else {
      GoodIsValid(env, s);
      StepKeepsGood(env, s, DrainEvent(fd));
      DrainsAreLegal(env, StepOf(env, s, DrainEvent(fd)), fd, n - 1);
      RunCons(env, s, DrainEvent(fd), DrainEvents(fd, n - 1));
    }
  }

  /** A connection all of whose bytes are one request has been answered, with the answer still to be sent. */
  lemma RequestIsAnswered(env: Env, s: Server, fd: int, w: WireRequest)
    requires Good(env, s) && fd in s.connections && s.connections[fd].received == Print(w)
    requires AllBelowLimits(env.limits, [w])
    ensures var l := s.connections[fd];
            && l.conn.Valid() && l.conn.closing && |l.conn.Pending()| <= |OwedTo(env, w)|
  {
    hide Good, Print, WellFormed, AllBelowLimits, ParseNext, ReplaysAt, OwedTo, AnswerBytes;
    RegisteredIsOk(env, s, fd);
    var l := s.connections[fd];
    assert Print(w) + "" == Print(w);
    BelowLimits(env.limits, w);
    OneRequestRoundTrip(env.limits, w, "");
    if l.answers == [] {
      UnansweredWaits(env.limits, l.received, ParserOf(s, l.addr));
    } else {
      NothingCompletesNothing(env.limits);
      AnsweredOnce(env.limits, w, "", l.answers);
      assert ReplaysAt(env.limits, l.received, l.answers, 0) && BytesAt(env, l.answers, 0);
      FirstAnswer(env.limits, w, "", l.answers);
      AnswerIsOwed(env, w);
      OneAnswer(l);
    }
  }

  lemma UnansweredWaits(limits: Limits, received: string, p: Parser)
    requires Waits(limits, received, [], p)
    ensures ParseNext(limits, Fresh(received)).status.NeedMoreData?
  {
    assert FindCrlf("").None?;
    assert received[0..|received|] == received && "" + received == received;
  }

  lemma NothingCompletesNothing(limits: Limits)
    ensures CompletesNothing(limits, "")
  {
    assert FindCrlf("").None?;
  }

  /** A request is served on some run, whatever the request below the limits and however its bytes are cut:
      one connection, its bytes, and then writable events enough. */
  lemma ServedOneIsReached(env: Env, listeners: set<int>, fd: int, addr: nat, w: WireRequest, pieces: seq<string>)
    returns (steps: seq<Step>, i: nat)
    requires ValidEnv(env) && fd !in listeners && AllBelowLimits(env.limits, [w])
    requires Concat(pieces) == Print(w) && forall j | 0 <= j < |pieces| :: 0 < |pieces[j]| <= READ_CHUNK
    ensures steps == [Accept(fd, addr)] + (Reads(fd, pieces) + DrainEvents(fd, |OwedTo(env, w)| + 1))
    ensures ServedOne(env, listeners, steps, i, w, "")
  {
    hide Good, LegalRun, RunOf, AllBelowLimits, Print, OwedTo, DrainEvents, Reads, CompletesNothing;
    var s, n := FirstConnection(listeners, fd, addr), |OwedTo(env, w)| + 1;
    FirstConnectionIsGood(env, listeners, fd, addr);
    ReadsRun(env, s, fd, pieces);
    var t := RunOf(env, s, Reads(fd, pieces));
    assert s.connections[fd].received == "" && "" + Concat(pieces) == Print(w);
    RequestIsAnswered(env, t, fd, w);
    DrainsAreLegal(env, t, fd, n);
    AllDrain(fd, n);
    i := AnswerDrains(env, t, DrainEvents(fd, n), fd);
    RunAppends(env, s, Reads(fd, pieces), DrainEvents(fd, n));
    FromFirstConnection(env, listeners, fd, addr, Reads(fd, pieces) + DrainEvents(fd, n));
    steps := [Accept(fd, addr)] + (Reads(fd, pieces) + DrainEvents(fd, n));
    assert Print(w) + "" == Print(w);
    NothingCompletesNothing(env.limits);
  }

  lemma AllDrain(fd: int, n: nat)
    ensures var steps := DrainEvents(fd, n);
            EventsOn(steps, fd) == n && forall j | 0 <= j < |steps| :: Drains(steps[j])
  {
  }

  // ---------------------------------------------------------------------------------------------
  // More than one request
  // ---------------------------------------------------------------------------------------------

  /** What a connection of these runs has pending once answer `a` is given: the answer behind what is queued,
      in place of what is unread if it streams, else in front of it. */
  predicate AnswersOneMore(l: Link, m: Link, a: Answer, streams: bool, part: string)
  {
    && l.conn.Valid() && m.conn.Valid() && m.conn.wire == l.conn.wire && m.received != l.received
    && m.answers == l.answers + [a] && (m.spliced <==> l.spliced || l.conn.Unread() != "")
    && m.conn.Pending() == l.conn.Queued() + (a.bytes + if streams then "" else l.conn.Unread())
    && |l.conn.Queued()| < |m.conn.Queued()| <= Max(|l.conn.Queued()| + |part|, 2 * READ_CHUNK - 1)
  }

  /** The answer to a request, as it is. */
  ghost predicate Answers(env: Env, a: Answer, w: WireRequest)
    requires ValidEnv(env)
  {
    a.status == Parsed(Received(w)) && a.bytes == AnswerBytes(env, a.status)
  }

  /** Bytes with which the parser has a whole request are answered in the event that brings them, and only
      that request: what is behind it stays in the parser. */
  lemma RequestRead(env: Env, s: Server, fd: int, data: string, w: WireRequest, rest: string) returns (a: Answer)
    requires Good(env, s) && fd in s.connections && Full(s.connections[fd])
    requires 0 < |data| <= READ_CHUNK && WellFormed(env.limits, w)
    requires ParserOf(s, s.connections[fd].addr).Fed(data) == Fresh(Print(w) + rest)
    ensures LegalStep(s, ReadEvent(fd, data)) && forall f | f in s.connections :: s.connections[f].conn.Valid()
    ensures var t := StepOf(env, s, ReadEvent(fd, data)); var l := s.connections[fd];
            && Good(env, t) && fd in t.connections && Full(t.connections[fd]) && t.connections[fd].addr == l.addr
            && ParserOf(t, l.addr) == Fresh(rest) && t.listeners == s.listeners
            && t.connections[fd].received == l.received + data
            && Answers(env, a, w) && AnswersOneMore(l, t.connections[fd], a, Streams(env, a.status), PartOf(env, a.status))
  {
    hide Good, Full, StepOf, LegalStep, ReadEvent, OnReadable, Refilled, AnswersOneMore, Answers, Streams, PartOf, Print,
         WellFormed;
    ReadEventStep(env, s, fd, data);
    StepKeepsGood(env, s, ReadEvent(fd, data));
    InboundIsEmpty(env, s, fd);
    a := CallbackAnswers(env, s.connections[fd], ParserOf(s, s.connections[fd].addr), data, w, rest);
  }

  lemma InboundIsEmpty(env: Env, s: Server, fd: int)
    requires Good(env, s) && fd in s.connections
    ensures ValidEnv(env) && s.connections[fd].conn.Valid() && s.connections[fd].conn.inbound.Readable() == ""
  {
    assert Registered(env, s, fd);
  }

  lemma CallbackAnswers(env: Env, l: Link, p: Parser, data: string, w: WireRequest, rest: string) returns (a: Answer)
    requires ValidEnv(env) && l.conn.Valid() && l.conn.inbound.Readable() == "" && data != ""
    requires WellFormed(env.limits, w) && p.Fed(data) == Fresh(Print(w) + rest)
    ensures var read := l.(conn := ReadIntoOf(l.conn, Bytes(data)), received := l.received + data);
            var (m, q) := OnReadable(env, read, p);
            && q == Fresh(rest) && Answers(env, a, w)
            && AnswersOneMore(l, Refilled(m), a, Streams(env, a.status), PartOf(env, a.status))
  {
    hide OnReadable, WellFormed, Print, Received, AnswerBytes, PartOf, Streams, Refilled, AnswersOneMore;
    var read := l.(conn := ReadIntoOf(l.conn, Bytes(data)), received := l.received + data);
    a := CallbackQueues(env, l, p, data, w, rest);
    PartIsNotEmpty(env, a.status);
    RefillsAnswered(l, OnReadable(env, read, p).0, a, Streams(env, a.status), PartOf(env, a.status));
  }

  /** The callback's part of it, before the refill. */
  predicate QueuesOneMore(l: Link, m: Link, a: Answer, streams: bool, part: string)
  {
    && l.conn.Valid() && m.conn.Valid() && m.conn.wire == l.conn.wire && m.received != l.received
    && m.answers == l.answers + [a] && (m.spliced <==> l.spliced || l.conn.Unread() != "")
    && m.conn.Queued() == l.conn.Queued() + part
    && a.bytes == part + (if streams then m.conn.Unread() else "")
    && (!streams ==> m.conn.Unread() == l.conn.Unread())
  }

  lemma CallbackQueues(env: Env, l: Link, p: Parser, data: string, w: WireRequest, rest: string) returns (a: Answer)
    requires ValidEnv(env) && l.conn.Valid() && l.conn.inbound.Readable() == "" && data != ""
    requires WellFormed(env.limits, w) && p.Fed(data) == Fresh(Print(w) + rest)
    ensures var read := l.(conn := ReadIntoOf(l.conn, Bytes(data)), received := l.received + data);
            var (m, q) := OnReadable(env, read, p);
            && q == Fresh(rest) && Answers(env, a, w)
            && QueuesOneMore(l, m, a, Streams(env, a.status), PartOf(env, a.status))
  {
    hide OnReadable, ParseNext, Print, WellFormed, Received, PartOf, AnswerBytes, Streams, Conn.Unread, Conn.Pending,
         Buf.Appended, ValidEnv;
    OneRequestRoundTrip(env.limits, w, rest);
    AppendedReadable(l.conn.inbound, data);
    assert "" + data == data;
    var read := l.(conn := ReadIntoOf(l.conn, Bytes(data)), received := l.received + data);
    SecondRequestIsAnswered(env, read, p);
    SameOutput(l.conn, read.conn);
    KeepsReceived(env, read, p);
    var status := Parsed(Received(w));
    a := Answer(status, |read.received|, Fresh(rest), AnswerBytes(env, status));
  }

  lemma KeepsReceived(env: Env, l: Link, p: Parser)
    requires ValidEnv(env) && l.conn.Valid()
    ensures OnReadable(env, l, p).0.received == l.received
  {
  }

  lemma RefillsAnswered(l: Link, m: Link, a: Answer, streams: bool, part: string)
    requires QueuesOneMore(l, m, a, streams, part) && part != ""
    ensures AnswersOneMore(l, Refilled(m), a, streams, part)
  {
    hide Refilled, Conn.Unread, Conn.Pending;
    RefillBounds(m);
    QueuedThenUnread(l, m, a, streams, part);
  }

  lemma RefillBounds(m: Link)
    requires m.conn.Valid()
    ensures var n := Refilled(m);
            && n == m.(conn := n.conn) && n.conn.wire == m.conn.wire && n.conn.Pending() == m.conn.Pending()
            && |m.conn.Queued()| <= |n.conn.Queued()| <= Max(|m.conn.Queued()|, 2 * READ_CHUNK - 1)
  {
    hide FlushOf;
    RefusedFlush(m.conn);
  }

  lemma QueuedThenUnread(l: Link, m: Link, a: Answer, streams: bool, part: string)
    requires QueuesOneMore(l, m, a, streams, part)
    ensures m.conn.Pending() == l.conn.Queued() + (a.bytes + if streams then "" else l.conn.Unread())
  {
    hide Conn.Unread;
    var queued := l.conn.Queued();
    assert part + "" == part && a.bytes + "" == a.bytes;
    assert queued + part + m.conn.Unread() == queued + (part + m.conn.Unread());
  }

  /** A connection with two answers and nothing taken. `queued` and `unread` divide the first answer: what was
      queued of it, and what its stream had still to deliver when the second came, which streams or not. */
  predicate CutInto(m: Link, queued: string, unread: string, streams: bool)
  {
    && m.conn.Valid() && m.conn.wire == "" && |m.answers| == 2
    && m.answers[0].bytes == queued + unread && (m.spliced <==> unread != "")
    && m.conn.Pending() == queued + (m.answers[1].bytes + if streams then "" else unread)
  }

  /** From its start the server comes to answer a second request while the first answer is being sent: a
      client that sends one request, takes nothing, and sends another has both answered. */
  lemma SecondRequestRun(env: Env, listeners: set<int>, fd: int, addr: nat, w1: WireRequest, w2: WireRequest)
    returns (steps: seq<Step>, queued: string, unread: string)
    requires ValidEnv(env) && fd !in listeners
    requires WellFormed(env.limits, w1) && WellFormed(env.limits, w2)
    requires 0 < |Print(w1)| <= READ_CHUNK && 0 < |Print(w2)| <= READ_CHUNK
    ensures steps == [Accept(fd, addr)] + ([ReadEvent(fd, Print(w1))] + [ReadEvent(fd, Print(w2))])
    ensures Ran(env, listeners, steps) && Good(env, Start(listeners))
    ensures var t := RunOf(env, Start(listeners), steps);
            && fd in t.connections && CutInto(t.connections[fd], queued, unread, Streams(env, Parsed(Received(w2))))
            && Answers(env, t.connections[fd].answers[0], w1) && Answers(env, t.connections[fd].answers[1], w2)
    ensures |queued| <= Max(|PartOf(env, Parsed(Received(w1)))|, 2 * READ_CHUNK - 1)
  {
    hide Good, Full, LegalRun, RunOf, StepOf, LegalStep, ReadEvent, Print, WellFormed, Received, PartOf, Streams, AnswerBytes;
    var s := FirstConnection(listeners, fd, addr);
    FirstConnectionIsGood(env, listeners, fd, addr);
    var read1, read2 := ReadEvent(fd, Print(w1)), ReadEvent(fd, Print(w2));
    FreshFed(Print(w1));
    FreshFed(Print(w2));
    var a1 := RequestRead(env, s, fd, Print(w1), w1, "");
    var s1 := StepOf(env, s, read1);
    var a2 := RequestRead(env, s1, fd, Print(w2), w2, "");
    var s2 := StepOf(env, s1, read2);
    RunNothing(env, s2);
    RunOne(env, s1, read2);
    RunCons(env, s, read1, [read2]);
    FromFirstConnection(env, listeners, fd, addr, [read1] + [read2]);
    steps := [Accept(fd, addr)] + ([read1] + [read2]);
    queued, unread := s1.connections[fd].conn.Queued(), s1.connections[fd].conn.Unread();
    TwoAnswers(s.connections[fd], s1.connections[fd], s2.connections[fd], a1, a2, Streams(env, a1.status),
               Streams(env, a2.status), PartOf(env, a1.status), PartOf(env, a2.status));
  }

  lemma FreshFed(data: string)
    ensures Fresh("").Fed(data) == Fresh(data + "")
  {
    assert "" + data == data + "";
  }

  lemma TwoAnswers(l: Link, l1: Link, l2: Link, a1: Answer, a2: Answer, streams1: bool, streams2: bool,
                   part1: string, part2: string)
    requires l.conn == NEW_CONNECTION && l.answers == [] && !l.spliced
    requires AnswersOneMore(l, l1, a1, streams1, part1) && AnswersOneMore(l1, l2, a2, streams2, part2)
    ensures CutInto(l2, l1.conn.Queued(), l1.conn.Unread(), streams2) && l2.answers == [a1, a2]
    ensures |l1.conn.Queued()| <= Max(|part1|, 2 * READ_CHUNK - 1)
  {
    assert a1.bytes + "" == a1.bytes && "" + a1.bytes == a1.bytes;
  }

  /** With a first answer that has two chunks or more behind its head, part of it is always left unread there.
      Then a second answer in memory is sent inside the first body; one that streams is sent in place of the
      rest of it, and that many bytes of the first body never go out. */
  lemma FirstBodyIsCut(m: Link, queued: string, unread: string, streams: bool, head: string)
    requires CutInto(m, queued, unread, streams) && |queued| <= Max(|head|, 2 * READ_CHUNK - 1)
    requires |m.answers[0].bytes| >= |head| + 2 * READ_CHUNK
    ensures var first, second := m.answers[0].bytes, m.answers[1].bytes;
            && unread != "" && m.spliced && first == queued + unread
            && if streams then
                 m.conn.Pending() == queued + second && |m.conn.Pending()| == |first| + |second| - |unread|
               else
                 m.conn.Pending() == queued + second + unread
  {
    var second := m.answers[1].bytes;
    assert second + "" == second && queued + (second + unread) == queued + second + unread;
  }

  function Copies(s: string, n: nat): string
  {
    if n == 0 then "" else s + Copies(s, n - 1)
  }

  lemma {:induction false} CopiesSnoc(s: string, n: nat)
    ensures Copies(s, n) + s == Copies(s, n + 1)
  {
    if n > 0 {
      CopiesSnoc(s, n - 1);
      assert s + Copies(s, n - 1) + s == s + (Copies(s, n - 1) + s);
    } else {
      assert s + "" == "" + s;
    }
  }

  /** Two copies of a request in each event. */
  function Doubled(fd: int, printed: string, n: nat): seq<Step>
  {
    if n == 0 then [] else Doubled(fd, printed, n - 1) + [ReadEvent(fd, printed + printed)]
  }

  /** Before the first answer the parser of every connection is within the limit of its state, on every run. */
  lemma UnansweredIsBounded(env: Env, s: Server, fd: int)
    requires Good(env, s) && fd in s.connections && s.connections[fd].answers == []
    ensures var p := ParserOf(s, s.connections[fd].addr); WithinLimits(env.limits, p) && RetainsLittle(env.limits, p)
  {
    assert Registered(env, s, fd);
    hide Good;
    WaitingIsBounded(env.limits, s.connections[fd].received, ParserOf(s, s.connections[fd].addr));
  }

  /** After it nothing bounds the parser or the outbound queue: a client that sends two copies of a request
      in each of `n` events and takes nothing leaves `n` requests in the parser and at least `n` bytes queued. */
  lemma AnsweredIsUnbounded(env: Env, listeners: set<int>, fd: int, addr: nat, w: WireRequest, n: nat)
    returns (steps: seq<Step>)
    requires ValidEnv(env) && fd !in listeners
    requires WellFormed(env.limits, w) && 0 < 2 * |Print(w)| <= READ_CHUNK
    ensures Ran(env, listeners, steps) && Good(env, Start(listeners))
    ensures var t := RunOf(env, Start(listeners), steps);
            && fd in t.connections && t.connections[fd].conn.Valid()
            && |ParserOf(t, t.connections[fd].addr).buffer| >= n && |t.connections[fd].conn.Queued()| >= n
  {
    hide Good, LegalRun, RunOf, Print, WellFormed, Full;
    FirstConnectionIsGood(env, listeners, fd, addr);
    var s := FirstConnection(listeners, fd, addr);
    DoubledRun(env, s, fd, w, n);
    FromFirstConnection(env, listeners, fd, addr, Doubled(fd, Print(w), n));
    steps := [Accept(fd, addr)] + Doubled(fd, Print(w), n);
  }

  lemma {:induction false} DoubledRun(env: Env, s: Server, fd: int, w: WireRequest, n: nat)
    requires Good(env, s) && fd in s.connections && Full(s.connections[fd])
    requires ParserOf(s, s.connections[fd].addr) == Fresh("")
    requires WellFormed(env.limits, w) && 0 < 2 * |Print(w)| <= READ_CHUNK
    ensures LegalRun(env, s, Doubled(fd, Print(w), n))
    ensures var t := RunOf(env, s, Doubled(fd, Print(w), n));
            && fd in t.connections && Full(t.connections[fd]) && t.connections[fd].conn.Valid()
            && t.connections[fd].addr == s.connections[fd].addr
            && ParserOf(t, s.connections[fd].addr) == Fresh(Copies(Print(w), n)) && |Copies(Print(w), n)| >= n
            && |t.connections[fd].conn.Queued()| >= n
    decreases n
  {
    hide Good, LegalRun, RunOf, StepOf, LegalStep, ReadEvent, Print, WellFormed, AnswersOneMore;
    if n == 0 {
      RunNothing(env, s);
      FullIsValid(s.connections[fd]);
    } else {
      DoubledRun(env, s, fd, w, n - 1);
      var earlier := Doubled(fd, Print(w), n - 1);
      var t, data := RunOf(env, s, earlier), Print(w) + Print(w);
      GoodIsValid(env, t);
      OneCopyMore(Print(w), n);
      var a := RequestRead(env, t, fd, data, w, Copies(Print(w), n));
      QueueGrows(t.connections[fd], StepOf(env, t, ReadEvent(fd, data)).connections[fd], a, Streams(env, a.status), PartOf(env, a.status));
      RunOne(env, t, ReadEvent(fd, data));
      RunAppends(env, s, earlier, [ReadEvent(fd, data)]);
      CopiesAreLong(Print(w), n);
    }
  }

  lemma FullIsValid(l: Link)
    requires Full(l)
    ensures l.conn.Valid()
  {
  }

  lemma QueueGrows(l: Link, m: Link, a: Answer, streams: bool, part: string)
    requires AnswersOneMore(l, m, a, streams, part)
    ensures l.conn.Valid() && m.conn.Valid() && |l.conn.Queued()| < |m.conn.Queued()|
  {
  }

  lemma OneCopyMore(s: string, n: nat)
    requires n > 0
    ensures Fresh(Copies(s, n - 1)).Fed(s + s) == Fresh(s + Copies(s, n))
  {
    CopiesSnoc(s, n - 1);
    CopiesSnoc(s, n);
    assert Copies(s, n - 1) + (s + s) == Copies(s, n - 1) + s + s;
  }

  lemma {:induction false} CopiesAreLong(s: string, n: nat)
    requires s != ""
    ensures |Copies(s, n)| >= n
  {
    if n > 0 {
      CopiesAreLong(s, n - 1);
    }
  }
}
