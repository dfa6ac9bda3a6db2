/** Single events of the server: why a connection is closed, what goes out with the event that completes
    a request, and what a client that is refused gets. */
module ServerEvents {
  import opened HttpParser
  import opened ByteBuffer
  import opened TcpConnection
  import opened HttpResponse
  import opened Router
  import opened Poller
  import opened EventLoop
  import opened AnswerHistory
  import opened WholeServer

  /** The event says that the peer is gone, or that the connection is broken. */
  predicate Gone(e: PollEvent, k: Kernel)
  {
    || e.error
    || ((e.readable || e.hangup) && (k.recv.Eof? || k.recv.RecvFailed? || (k.recv.RecvAgain? && e.hangup)))
  }

  /** A `send` fails that the event leads to. */
  predicate SendBreaks(e: PollEvent, k: Kernel)
  {
    (Feeds(e, k) && k.first.send.SendFailed?) || (e.writable && k.second.send.SendFailed?)
  }

  predicate Drained(c: Conn)
    requires c.Valid()
  {
    c.closing && !c.HasPendingWrites()
  }

  lemma WhyServed(env: Env, l: Link, p: Parser, e: PollEvent, k: Kernel)
    requires ValidEnv(env) && l.conn.Valid() && !l.conn.error
    ensures var s := Serve(env, l, p, e, k); var c := s.link.conn;
            && (s.verdict.Keep? ==> !Gone(e, k) && !c.error && !Drained(c))
            && (s.verdict.Flushed? ==> !Gone(e, k) && !c.error && Drained(c))
            && (s.verdict.Broken? ==> Gone(e, k) || c.error)
            && (c.error && !Gone(e, k) ==> SendBreaks(e, k))
  {
    hide FlushOf, Conn.HasPendingWrites, Conn.Pending, OnReadable, Drained;
    ReadStageWhy(env, l, p, e, k);
    var r := ReadStage(env, l, p, e, k);
    FlushErrors(r.link.conn, k.second.gots, k.second.send);
    hide ReadStage;
    assert forall c: Conn | c.Valid() :: Drained(c) <==> c.closing && !c.HasPendingWrites() by { DrainedMeans(); }
  }

  lemma DrainedMeans()
    ensures forall c: Conn | c.Valid() :: Drained(c) <==> c.closing && !c.HasPendingWrites()
  {
  }

  lemma ReadStageWhy(env: Env, l: Link, p: Parser, e: PollEvent, k: Kernel)
    requires ValidEnv(env) && l.conn.Valid() && !l.conn.error
    ensures var s := ReadStage(env, l, p, e, k);
            && !s.verdict.Flushed? && (s.verdict.Keep? ==> !Gone(e, k) && !s.link.conn.error)
            && (s.verdict.Broken? ==> Gone(e, k) || s.link.conn.error)
            && (s.link.conn.error && !Gone(e, k) ==> Feeds(e, k) && k.first.send.SendFailed?)
  {
    hide FlushOf, Conn.HasPendingWrites, Conn.Pending, OnReadable;
    if Feeds(e, k) {
      var read := l.(conn := ReadIntoOf(l.conn, k.recv), received := l.received + k.recv.data);
      OnReadableKeepsName(env, read, p);
      FlushErrors(OnReadable(env, read, p).0.conn, k.first.gots, k.first.send);
    }
  }

  /** Why a connection is closed, and that it is closed then: the peer is gone or the connection is broken,
      a `send` failed, or its answer has drained, and it is closed as drained only in the last case. */
  lemma WhyClosed(env: Env, s: Server, step: Step)
    requires Good(env, s) && LegalStep(s, step) && step.Event? && step.event.fd in s.connections
    requires forall f | f in s.connections :: s.connections[f].conn.Valid()
    ensures var e, k, t := step.event, step.kernel, StepOf(env, s, step);
            if e.fd in t.connections then
              var c := t.connections[e.fd].conn;
              t.closed == s.closed && c.Valid() && !Gone(e, k) && !c.error && !Drained(c)
            else
              && |t.closed| == |s.closed| + 1 && s.closed <= t.closed
              && var last := t.closed[|s.closed|]; var c := last.link.conn;
                 && c.Valid()
                 && (last.flushed ==> !Gone(e, k) && !c.error && Drained(c))
                 && (!last.flushed ==> Gone(e, k) || (c.error && SendBreaks(e, k)))
  {
    hide Good, Serve, Drained, LinkOk, Conn.HasPendingWrites;
    var e, k, fd := step.event, step.kernel, step.event.fd;
    assert Registered(env, s, fd) by { GoodRegisters(env, s, fd); }
    var l := s.connections[fd];
    GoodIsValid(env, s);
    WhyServed(env, l, ParserOf(s, l.addr), e, k);
  }

  lemma GoodRegisters(env: Env, s: Server, fd: int)
    requires Good(env, s) && fd in s.connections
    ensures ValidEnv(env) && Registered(env, s, fd)
  {
  }

  // ---------------------------------------------------------------------------------------------
  // Answered with the event that completes the request
  // ---------------------------------------------------------------------------------------------

  /** The event brings bytes with which the request is complete or refused, the answer is in memory, and the
      kernel takes all of it at once. */
  ghost predicate CompletesAtOnce(env: Env, l: Link, p: Parser, e: PollEvent, k: Kernel)
    requires ValidEnv(env)
  {
    && l.answers == [] && e.readable && !e.error && k.recv.Bytes?
    && var status := ParseNext(env.limits, p.Fed(k.recv.data)).status;
       && !status.NeedMoreData? && (AnswerOf(env, status).body.Full? || IsHead(status))
       && k.first.send.Accepted? && k.first.send.count >= |AnswerBytes(env, status)|
  }

  /** The callback on a connection that has not been answered leaves just the answer to be sent. */
  lemma AnswerIsPending(env: Env, l: Link, p: Parser, data: string)
    requires ValidEnv(env) && LinkOk(env, l, p) && data != "" && l.answers == []
    requires var status := ParseNext(env.limits, p.Fed(data)).status;
             !status.NeedMoreData? && (AnswerOf(env, status).body.Full? || IsHead(status))
    ensures var status := ParseNext(env.limits, p.Fed(data)).status;
            var c := OnReadable(env, l.(conn := ReadIntoOf(l.conn, Bytes(data)), received := l.received + data), p).0.conn;
            && c.wire == "" && c.Pending() == AnswerBytes(env, status) && c.stream.None?
            && c.HasPendingWrites() && c.closing && c.error == l.conn.error
  {
    hide ParseNext, AnswerOf, WriteResponseOf, Head, WireHeaders, History, AnswersRight, Enumerates, Dispatch;
    var status := ParseNext(env.limits, p.Fed(data)).status;
    var r := AnswerOf(env, status);
    var keys := env.order(WireHeaders(r));
    AnswerIsValid(env, status);
    EmptyInbound(l.conn, data);
    var c := ReadIntoOf(l.conn, Bytes(data));
    var idle := c.(inbound := c.inbound.Consumed(|c.inbound.Readable()|));
    assert l.conn.stream.None?;
    WriteResponsePending(idle, r, keys, IsHead(status));
    WriteResponseQueues(idle, r, keys, IsHead(status));
  }

  lemma EmptyInbound(c: Conn, data: string)
    requires c.Valid() && c.inbound.Readable() == ""
    ensures ReadIntoOf(c, Bytes(data)).inbound.Readable() == data
  {
    AppendedReadable(c.inbound, data);
    assert "" + data == data;
  }

  lemma ServedAtOnce(env: Env, l: Link, p: Parser, e: PollEvent, k: Kernel)
    requires ValidEnv(env) && LinkOk(env, l, p) && !l.conn.error && LegalKernel(k) && CompletesAtOnce(env, l, p, e, k)
    ensures var s := Serve(env, l, p, e, k);
            s.verdict.Flushed? && s.link.conn.wire == AnswerBytes(env, ParseNext(env.limits, p.Fed(k.recv.data)).status)
  {
    hide ParseNext, AnswerOf, AnswerBytes, IsHead, OnReadable, FlushOf, Conn.HasPendingWrites, Conn.Pending;
    AnswerIsPending(env, l, p, k.recv.data);
    hide LinkOk;
    var read := l.(conn := ReadIntoOf(l.conn, k.recv), received := l.received + k.recv.data);
    var c := OnReadable(env, read, p).0.conn;
    QueuedIsPending(c);
    FlushWhole(c, k.first.gots, k.first.send);
    assert c.wire + c.Pending() == c.Pending();
  }

  /** An answer in memory that fits one `send` goes out with the very event that completes the request, and
      the connection is closed with it, no writable event needed. */
  lemma AnsweredAtOnce(env: Env, s: Server, step: Step)
    requires Good(env, s) && LegalStep(s, step) && step.Event? && step.event.fd in s.connections
    requires forall f | f in s.connections :: s.connections[f].conn.Valid()
    requires ValidEnv(env)
    requires var l := s.connections[step.event.fd];
             CompletesAtOnce(env, l, ParserOf(s, l.addr), step.event, step.kernel)
    ensures var l := s.connections[step.event.fd]; var t := StepOf(env, s, step);
            && step.event.fd !in t.connections && |t.closed| == |s.closed| + 1
            && var c := t.closed[|s.closed|];
               c.flushed && c.link.conn.wire ==
               AnswerBytes(env, ParseNext(env.limits, ParserOf(s, l.addr).Fed(step.kernel.recv.data)).status)
  {
    var l := s.connections[step.event.fd];
    GoodRegisters(env, s, step.event.fd);
    hide Good, ParseNext, LinkOk, AnswerBytes, CompletesAtOnce, Serve;
    BytesAreRead(env, l, ParserOf(s, l.addr), step.event, step.kernel);
    ServedAtOnce(env, l, ParserOf(s, l.addr), step.event, step.kernel);
  }

  lemma BytesAreRead(env: Env, l: Link, p: Parser, e: PollEvent, k: Kernel)
    requires ValidEnv(env) && CompletesAtOnce(env, l, p, e, k)
    ensures k.recv.Bytes?
  {
  }

  lemma QueuedIsPending(c: Conn)
    requires c.Valid() && c.stream.None?
    ensures c.Queued() == c.Pending()
  {
    assert c.Queued() + "" == c.Queued();
  }

  // ---------------------------------------------------------------------------------------------
  // Refused requests
  // ---------------------------------------------------------------------------------------------

  /** Bytes that are refused with their last one, and not before. */
  ghost predicate RefusedAtLast(limits: Limits, received: string)
  {
    && ParseNext(limits, Fresh(received)).status.Error?
    && forall n: nat | n < |received| :: Incomplete(limits, received[..n])
  }

  /** A client whose bytes are refused: on every run, once it has been closed after draining it has received
      exactly one response, 400 with its JSON text. */
  lemma RefusedOverTheWire(env: Env, listeners: set<int>, steps: seq<Step>, i: nat) returns (r: HttpResponse)
    requires Ran(env, listeners, steps) && i < |ClosedBy(env, listeners, steps)| && ClosedBy(env, listeners, steps)[i].flushed
    requires RefusedAtLast(env.limits, ClosedBy(env, listeners, steps)[i].link.received)
    ensures var text := env.errorText("BAD_REQUEST", "Malformed HTTP request.");
            && IsError(r, BadRequest, text)
            && (forall k | k in env.order(WireHeaders(r)) :: k in WireHeaders(r))
            && ClosedBy(env, listeners, steps)[i].link.conn.wire == Head(r, env.order(WireHeaders(r))) + text
  {
    var c := ClosedBy(env, listeners, steps)[i];
    ClosedIsAnswered(env, listeners, steps, i);
    hide Ran, ClosedBy;
    RefusedOnce(env, c.link);
    var text := env.errorText("BAD_REQUEST", "Malformed HTTP request.");
    r := ErrorResponse(BadRequest, text);
    ErrorIsError(BadRequest, text);
    AnswerIsValid(env, ParseResult.Error);
  }

  lemma RefusedOnce(env: Env, l: Link)
    requires ValidEnv(env) && Answered(env, l) && !l.conn.HasPendingWrites() && RefusedAtLast(env.limits, l.received)
    ensures l.conn.wire == AnswerBytes(env, ParseResult.Error)
  {
    hide ParseNext, AnswerBytes, Conn.Pending, Conn.HasPendingWrites, Delivered, Answered;
    AnsweredFacts(env, l);
    if |l.answers| > 1 {
      SecondIsLater(env.limits, l.received, l.answers);
    }
    assert ReplaysAt(env.limits, l.received, l.answers, 0) && BytesAt(env, l.answers, 0);
    var at := l.answers[0].at;
    assert l.received[0..at] == l.received[..at] && "" + l.received[..at] == l.received[..at];
    assert l.received[..|l.received|] == l.received;
    OneAnswer(l);
  }

  lemma AnsweredFacts(env: Env, l: Link)
    requires ValidEnv(env) && Answered(env, l)
    ensures l.answers != [] && Delivered(l) && AnswersRight(env, l.answers)
    ensures Replays(env.limits, l.received, l.answers)
  {
    hide Delivered, AnswersRight, Replays;
  }

  lemma SecondIsLater(limits: Limits, received: string, answers: seq<Answer>)
    requires |answers| > 1 && Replays(limits, received, answers)
    ensures answers[0].at < |received|
  {
    hide ParseNext;
    assert ReplaysAt(limits, received, answers, 1);
  }
}
