/** The server as a whole: an invariant of every reachable state of the event loop, and from it what
    each client has received when its connection is closed, whatever the other connections do. */
module WholeServer {
  import opened HttpParser
  import opened Fragmentation
  import opened RequestRoundTrip
  import opened ByteBuffer
  import opened TcpConnection
  import opened HttpResponse
  import opened Router
  import opened Poller
  import opened EventLoop
  import opened AnswerHistory

  // ---------------------------------------------------------------------------------------------
  // One connection
  // ---------------------------------------------------------------------------------------------

  /** The bytes of all answers, in order. */
  function AllAnswers(answers: seq<Answer>): string
  {
    if answers == [] then "" else AllAnswers(answers[..|answers| - 1]) + answers[|answers| - 1].bytes
  }

  /** Each answer is the head and the body of the response to its parse result. */
  predicate BytesAt(env: Env, answers: seq<Answer>, k: nat)
    requires ValidEnv(env) && k < |answers|
  {
    answers[k].bytes == AnswerBytes(env, answers[k].status)
  }

  ghost predicate AnswersRight(env: Env, answers: seq<Answer>)
    requires ValidEnv(env)
  {
    forall k: nat {:trigger BytesAt(env, answers, k)} | k < |answers| :: BytesAt(env, answers, k)
  }

  /** The wire and what is pending are together exactly the answers in order, unless an answer was queued
      while a stream before it was unread; that takes a second answer. */
  predicate Delivered(l: Link)
  {
    && l.conn.Valid()
    && (!l.spliced ==> l.conn.wire + l.conn.Pending() == AllAnswers(l.answers))
    && (|l.answers| <= 1 ==> !l.spliced)
  }

  /** What holds of a connection whenever an event on it has been worked off: the answers replay from the
      bytes received, it is about to close if and only if there was one, and nothing but answers was queued. */
  ghost predicate LinkOk(env: Env, l: Link, p: Parser)
    requires ValidEnv(env)
  {
    && Delivered(l) && AnswersRight(env, l.answers) && l.conn.inbound.Readable() == ""
    && History(env.limits, l.received, l.answers, p)
    && (l.conn.closing <==> l.answers != [])
    && (l.answers == [] ==> l.conn.wire == "" && !l.conn.HasPendingWrites())
  }

  /** An answered connection, seen without its parser. */
  ghost predicate Answered(env: Env, l: Link)
    requires ValidEnv(env)
  {
    l.answers != [] && exists p :: LinkOk(env, l, p)
  }

  /** Bytes that arrive, whatever their cut, keep the invariant through the callback. */
  lemma OnReadableOk(env: Env, l: Link, p: Parser, data: string)
    requires ValidEnv(env) && LinkOk(env, l, p) && data != ""
    ensures var read := l.(conn := ReadIntoOf(l.conn, Bytes(data)), received := l.received + data);
            var (m, q) := OnReadable(env, read, p);
            LinkOk(env, m, q)
  {
    hide ParseNext, AnswerOf, WriteResponseOf, Buf.Appended, Buf.Consumed, History, AnswerBytes, Enumerates, Delivered,
         AnswersRight;
    DeliveredIsValid(l);
    var read := l.(conn := ReadIntoOf(l.conn, Bytes(data)), received := l.received + data);
    AppendedReadable(l.conn.inbound, data);
    assert "" + data == data;
    ConsumedReadable(read.conn.inbound, |data|);
    var conn := read.conn.(inbound := read.conn.inbound.Consumed(|data|));
    var next := ParseNext(env.limits, p.Fed(data));
    HistoryStep(env.limits, l.received, l.answers, p, data, AnswerBytes(env, next.status));
    DeliveredFrame(l, read.(conn := conn));
    if !next.status.NeedMoreData? {
      AnswerDelivered(env, read.(conn := conn), next);
    }
  }

  lemma DeliveredIsValid(l: Link)
    requires Delivered(l)
    ensures l.conn.Valid()
  {
  }

  lemma DeliveredFrame(l: Link, m: Link)
    requires Delivered(l) && m.conn.Valid()
    requires m.conn == l.conn.(inbound := m.conn.inbound, error := m.conn.error)
    requires m.answers == l.answers && m.spliced == l.spliced
    ensures Delivered(m)
  {
  }

  /** Answering keeps what is delivered, and leaves the connection about to close with output pending. */
  lemma AnswerDelivered(env: Env, l: Link, next: NextResult)
    requires ValidEnv(env) && Delivered(l) && AnswersRight(env, l.answers) && (l.answers == [] ==> !l.conn.HasPendingWrites())
    ensures var r := AnswerOf(env, next.status); var keys := env.order(WireHeaders(r));
            && r.Valid() && (forall k | k in keys :: k in WireHeaders(r))
            && var c := WriteResponseOf(l.conn, r, keys, IsHead(next.status));
               var more := l.answers + [Answer(next.status, |l.received|, next.p, AnswerBytes(env, next.status))];
               && Delivered(l.(conn := c, answers := more, spliced := l.spliced || l.conn.Unread() != ""))
               && AnswersRight(env, more)
               && c.closing && c.HasPendingWrites() && c.error == l.conn.error && c.inbound == l.conn.inbound
  {
    hide WriteResponseOf, AnswerOf, IsHead, ResponseBytes, QueuedPart, Conn.Unread, Conn.Pending, AllAnswers, WireHeaders,
         Enumerates, Dispatch, AnswersRight;
    var status := next.status;
    AnswerIsValid(env, status);
    var r := AnswerOf(env, status);
    var keys := env.order(WireHeaders(r));
    var c := WriteResponseOf(l.conn, r, keys, IsHead(status));
    var a := Answer(status, |l.received|, next.p, AnswerBytes(env, status));
    WriteResponseQueues(l.conn, r, keys, IsHead(status));
    OneAnswerMore(env, l.answers, a);
    if l.conn.Unread() == "" {
      CommutesWithNothing(QueuedPart(r, keys, IsHead(status)));
      InOrder(l.conn, r, keys, IsHead(status));
      assert l.conn.wire + (l.conn.Pending() + a.bytes) == (l.conn.wire + l.conn.Pending()) + a.bytes;
    }
    if l.answers == [] {
      NothingUnread(l.conn);
    }
  }

  lemma NothingUnread(c: Conn)
    requires c.Valid() && !c.HasPendingWrites()
    ensures c.Unread() == ""
  {
  }

  lemma CommutesWithNothing(s: string)
    ensures "" + s == s + ""
  {
  }

  lemma OneAnswerMore(env: Env, answers: seq<Answer>, a: Answer)
    requires ValidEnv(env) && AnswersRight(env, answers) && a.bytes == AnswerBytes(env, a.status)
    ensures AllAnswers(answers + [a]) == AllAnswers(answers) + a.bytes && AnswersRight(env, answers + [a])
  {
    hide AnswerBytes;
    assert (answers + [a])[..|answers|] == answers;
    forall k: nat | k < |answers| + 1 ensures BytesAt(env, answers + [a], k) {
      assert k < |answers| ==> BytesAt(env, answers, k);
    }
  }

  lemma AnswerIsValid(env: Env, status: ParseResult)
    requires ValidEnv(env)
    ensures var r := AnswerOf(env, status);
            r.Valid() && forall k | k in env.order(WireHeaders(r)) :: k in WireHeaders(r)
  {
    var r := AnswerOf(env, status);
    EnumeratedKeys(env.order(WireHeaders(r)), WireHeaders(r));
  }

  lemma FlushLinkOk(env: Env, l: Link, p: Parser, f: FlushInput)
    requires ValidEnv(env) && LinkOk(env, l, p) && l.conn.closing
    ensures LinkOk(env, FlushLink(l, f), p) && FlushLink(l, f).conn.closing
  {
    hide History, AnswersRight, FlushOf, AllAnswers, Conn.Pending;
    FlushConserves(l.conn, f.gots, f.send);
  }

  /** What an event leaves behind, by verdict. */
  ghost predicate ServedOk(env: Env, s: Served)
    requires ValidEnv(env)
  {
    && LinkOk(env, s.link, s.parser)
    && (s.verdict.Keep? ==> !s.link.conn.error)
  }

  lemma ReadStageOk(env: Env, l: Link, p: Parser, e: PollEvent, k: Kernel)
    requires ValidEnv(env) && LinkOk(env, l, p) && !l.conn.error && LegalKernel(k)
    ensures ServedOk(env, ReadStage(env, l, p, e, k))
  {
    hide History, AnswersRight, OnReadable;
    if !e.error && (e.readable || e.hangup) {
      if k.recv.Bytes? {
        hide LinkOk;
        OnReadableOk(env, l, p, k.recv.data);
        var read := l.(conn := ReadIntoOf(l.conn, k.recv), received := l.received + k.recv.data);
        var (m, q) := OnReadable(env, read, p);
        OnReadableKeepsName(env, read, p);
        if m.conn.HasPendingWrites() {
          PendingIsClosing(env, m, q);
          FlushLinkOk(env, m, q, k.first);
        }
      } else {
        DeliveredFrame(l, l.(conn := ReadIntoOf(l.conn, k.recv)));
        assert LinkOk(env, l.(conn := ReadIntoOf(l.conn, k.recv)), p);
      }
    }
  }

  lemma OnReadableKeepsName(env: Env, l: Link, p: Parser)
    requires ValidEnv(env) && l.conn.Valid()
    ensures OnReadable(env, l, p).0.addr == l.addr && OnReadable(env, l, p).0.id == l.id
    ensures OnReadable(env, l, p).0.conn.error == l.conn.error
  {
  }

  lemma ReadStageFrame(env: Env, l: Link, p: Parser, e: PollEvent, k: Kernel)
    requires ValidEnv(env) && l.conn.Valid()
    ensures var s := ReadStage(env, l, p, e, k);
            && s.link.addr == l.addr && s.link.id == l.id && !s.verdict.Flushed?
            && (!Feeds(e, k) ==> s.parser == p)
  {
    hide FlushOf;
  }

  lemma ServeOk(env: Env, l: Link, p: Parser, e: PollEvent, k: Kernel)
    requires ValidEnv(env) && LinkOk(env, l, p) && !l.conn.error && LegalKernel(k)
    ensures var s := Serve(env, l, p, e, k);
            && ServedOk(env, s) && s.link.addr == l.addr && s.link.id == l.id
            && (s.verdict.Keep? ==> !(s.link.conn.closing && !s.link.conn.HasPendingWrites()))
            && (s.verdict.Flushed? ==> Answered(env, s.link) && !s.link.conn.HasPendingWrites())
            && (!Feeds(e, k) ==> s.parser == p)
  {
    hide ReadStage, WritePart, History, AnswersRight, AllAnswers, Conn.HasPendingWrites;
    ReadStageOk(env, l, p, e, k);
    ReadStageFrame(env, l, p, e, k);
    WritePartOk(env, ReadStage(env, l, p, e, k), e, k);
  }

  lemma WritePartOk(env: Env, s: Served, e: PollEvent, k: Kernel)
    requires ValidEnv(env) && ServedOk(env, s) && !s.verdict.Flushed?
    ensures var t := WritePart(s, e, k);
            && ServedOk(env, t) && t.link.addr == s.link.addr && t.link.id == s.link.id && t.parser == s.parser
            && !t.verdict.Flushed?
  {
    hide FlushLink, Answered, History, AnswersRight, AllAnswers;
    if s.verdict.Keep? && e.writable && s.link.conn.HasPendingWrites() {
      PendingIsClosing(env, s.link, s.parser);
      FlushLinkOk(env, s.link, s.parser, k.second);
      FlushKeepsName(s.link, k.second);
    }
  }

  lemma FlushKeepsName(l: Link, f: FlushInput)
    requires l.conn.Valid()
    ensures FlushLink(l, f).addr == l.addr && FlushLink(l, f).id == l.id
  {
  }

  lemma PendingIsClosing(env: Env, l: Link, p: Parser)
    requires ValidEnv(env) && LinkOk(env, l, p) && l.conn.HasPendingWrites()
    ensures l.conn.closing
  {
  }

  // ---------------------------------------------------------------------------------------------
  // All connections
  // ---------------------------------------------------------------------------------------------

  /** What holds of a registered connection whenever the loop is about to wait. */
  ghost predicate Registered(env: Env, s: Server, fd: int)
    requires ValidEnv(env) && fd in s.connections
  {
    var l := s.connections[fd];
    && LinkOk(env, l, ParserOf(s, l.addr))
    && !l.conn.error
    && !(l.conn.closing && !l.conn.HasPendingWrites())
    && fd in s.interest && s.interest[fd] == Interest(true, l.conn.HasPendingWrites())
    && fd !in s.listeners
  }

  /** What holds of a closed connection: if it was closed because its output had drained, it had been
      answered and has nothing pending. */
  ghost predicate ClosedOk(env: Env, c: Closed)
    requires ValidEnv(env)
  {
    c.flushed ==> Answered(env, c.link) && !c.link.conn.HasPendingWrites()
  }

  /** The invariant: the poller watches exactly the listeners and the live connections, for reading
      always and for writing iff output is pending; no two connections share an address; only live
      connections have a parser; and whoever was closed after draining got what was owed. */
  ghost predicate Good(env: Env, s: Server)
  {
    && ValidEnv(env)
    && s.interest.Keys == s.connections.Keys + s.listeners
    && (forall fd | fd in s.listeners :: fd in s.interest && s.interest[fd] == Interest(true, false))
    && (forall fd {:trigger Registered(env, s, fd)} | fd in s.connections :: Registered(env, s, fd))
    && (forall f, g | f in s.connections && g in s.connections && f != g ::
          s.connections[f].addr != s.connections[g].addr)
    && (forall a | a in s.parsers :: exists f :: f in s.connections && s.connections[f].addr == a)
    && (forall i {:trigger ClosedOk(env, s.closed[i])} | 0 <= i < |s.closed| :: ClosedOk(env, s.closed[i]))
  }

  lemma GoodIsValid(env: Env, s: Server)
    requires Good(env, s)
    ensures ValidEnv(env) && forall f | f in s.connections :: s.connections[f].conn.Valid()
  {
    forall f | f in s.connections ensures s.connections[f].conn.Valid() {
      assert Registered(env, s, f);
    }
  }

  lemma FreshLinkOk(env: Env, id: nat, addr: nat)
    requires ValidEnv(env)
    ensures LinkOk(env, Link(id, addr, NEW_CONNECTION, "", [], false), Fresh(""))
  {
  }

  lemma AcceptKeepsGood(env: Env, s: Server, fd: int, addr: nat)
    requires Good(env, s) && LegalStep(s, Accept(fd, addr))
    ensures Good(env, AcceptOf(s, fd, addr))
  {
    hide LinkOk, Answered;
    var t := AcceptOf(s, fd, addr);
    FreshLinkOk(env, s.accepted, addr);
    assert addr !in s.parsers;
    forall f | f in t.connections ensures Registered(env, t, f) {
      if f != fd {
        assert Registered(env, s, f);
      }
    }
    forall a | a in t.parsers ensures exists f :: f in t.connections && t.connections[f].addr == a {
      var f :| f in s.connections && s.connections[f].addr == a;
      assert f in t.connections;
    }
  }

  lemma KeepKeepsGood(env: Env, s: Server, fd: int, served: Served, fed: bool)
    requires Good(env, s) && fd in s.connections && served.link.conn.Valid()
    requires served.link.addr == s.connections[fd].addr
    requires ServedOk(env, served) && served.verdict.Keep?
    requires !(served.link.conn.closing && !served.link.conn.HasPendingWrites())
    requires !fed ==> served.parser == ParserOf(s, served.link.addr)
    ensures Good(env, Record(s, fd, served, fed))
  {
    hide LinkOk, Answered, Conn.HasPendingWrites;
    var t := Record(s, fd, served, fed);
    var addr := served.link.addr;
    assert Registered(env, s, fd);
    assert fd in t.connections && t.connections[fd].addr == addr;
    forall f | f in t.connections ensures Registered(env, t, f) {
      if f != fd {
        assert Registered(env, s, f);
        assert ParserOf(t, s.connections[f].addr) == ParserOf(s, s.connections[f].addr);
      }
    }
    forall a | a in t.parsers ensures exists f :: f in t.connections && t.connections[f].addr == a {
      if a != addr {
        var f :| f in s.connections && s.connections[f].addr == a;
        assert f in t.connections && t.connections[f].addr == a;
      }
    }
  }

  lemma CloseKeepsGood(env: Env, s: Server, fd: int, served: Served, fed: bool)
    requires Good(env, s) && fd in s.connections && served.link.conn.Valid()
    requires served.link.addr == s.connections[fd].addr && !served.verdict.Keep?
    requires served.verdict.Flushed? ==> Answered(env, served.link) && !served.link.conn.HasPendingWrites()
    ensures Good(env, Record(s, fd, served, fed))
  {
    hide LinkOk, Answered, Conn.HasPendingWrites;
    var t := Record(s, fd, served, fed);
    assert Registered(env, s, fd);
    forall f | f in t.connections ensures Registered(env, t, f) {
      assert Registered(env, s, f);
      assert ParserOf(t, s.connections[f].addr) == ParserOf(s, s.connections[f].addr);
    }
    forall a | a in t.parsers ensures exists f :: f in t.connections && t.connections[f].addr == a {
      var f :| f in s.connections && s.connections[f].addr == a;
      assert f in t.connections;
    }
  }

  /** Every step of the loop keeps the invariant. */
  lemma StepKeepsGood(env: Env, s: Server, step: Step)
    requires Good(env, s) && LegalStep(s, step)
    requires forall f | f in s.connections :: s.connections[f].conn.Valid()
    ensures Good(env, StepOf(env, s, step))
  {
    match step
    case Accept(fd, addr) => AcceptKeepsGood(env, s, fd, addr);
    case Event(e, k) =>
      hide Serve, Record, ServedOk, Answered, LinkOk, ReadStage;
      if e.fd in s.connections {
        assert Registered(env, s, e.fd);
        var l := s.connections[e.fd];
        ServeOk(env, l, ParserOf(s, l.addr), e, k);
        var served := Serve(env, l, ParserOf(s, l.addr), e, k);
        if served.verdict.Keep? {
          KeepKeepsGood(env, s, e.fd, served, Feeds(e, k));
        } else {
          CloseKeepsGood(env, s, e.fd, served, Feeds(e, k));
        }
      }
  }

  /** A run the kernel can produce: each step legal where it is taken. */
  ghost predicate LegalRun(env: Env, s: Server, steps: seq<Step>)
    requires Good(env, s)
    decreases |steps|
  {
    steps == [] ||
    (LegalStep(s, steps[0]) &&
     (GoodIsValid(env, s); StepKeepsGood(env, s, steps[0]); LegalRun(env, StepOf(env, s, steps[0]), steps[1..])))
  }

  ghost function RunOf(env: Env, s: Server, steps: seq<Step>): (t: Server)
    requires Good(env, s) && LegalRun(env, s, steps)
    ensures Good(env, t)
    decreases |steps|
  {
    if steps == [] then s
    else
      GoodIsValid(env, s);
      StepKeepsGood(env, s, steps[0]);
      RunOf(env, StepOf(env, s, steps[0]), steps[1..])
  }

  /** What the class does with its batches is such a run, whenever the kernel's answers make it legal. */
  lemma {:induction false} LoopIsRun(env: Env, s: Server, steps: seq<Step>)
    requires Good(env, s) && LegalRun(env, s, steps)
    ensures Sound(env, s) && RunSteps(env, s, steps) == RunOf(env, s, steps)
    decreases |steps|
  {
    GoodIsValid(env, s);
    if steps != [] {
      hide Good, StepOf, LegalStep;
      StepKeepsGood(env, s, steps[0]);
      LoopIsRun(env, StepOf(env, s, steps[0]), steps[1..]);
    }
  }

  /** The server after `listen`, before any client. */
  function Start(listeners: set<int>): Server
  {
    Server(map[], map[], map fd | fd in listeners :: Interest(true, false), listeners, 0, [])
  }

  lemma StartIsGood(env: Env, listeners: set<int>)
    requires ValidEnv(env)
    ensures Good(env, Start(listeners))
  {
  }

  /** The bytes a well-formed request is owed: the head and body of `dispatch` on it, only the head for HEAD. */
  ghost function OwedTo(env: Env, w: WireRequest): string
    requires ValidEnv(env)
  {
    var r := Dispatch(env.routes, Received(w), env.errorText);
    Head(r, env.order(WireHeaders(r))) + if w.verb == "HEAD" then "" else r.BodyBytes()
  }

  /** Whoever was closed by draining after one request, with nothing behind it that completes another or is
      refused, got exactly what it is owed. */
  lemma ClosedGotItsAnswer(env: Env, c: Closed, w: WireRequest, extra: string)
    requires ValidEnv(env) && Answered(env, c.link) && !c.link.conn.HasPendingWrites()
    requires AllBelowLimits(env.limits, [w]) && CompletesNothing(env.limits, extra) && c.link.received == Print(w) + extra
    ensures c.link.conn.wire == OwedTo(env, w)
  {
    hide AllBelowLimits, CompletesNothing, Print, ParseNext, AnswerBytes, ReplaysAt;
    var l := c.link;
    AnsweredOnce(env.limits, w, extra, l.answers);
    assert ReplaysAt(env.limits, l.received, l.answers, 0) && BytesAt(env, l.answers, 0);
    FirstAnswer(env.limits, w, extra, l.answers);
    OneAnswer(l);
    AnswerIsOwed(env, w);
  }

  lemma OneAnswer(l: Link)
    requires Delivered(l) && |l.answers| == 1
    ensures l.conn.wire + l.conn.Pending() == l.answers[0].bytes && !l.spliced
    ensures !l.conn.HasPendingWrites() ==> l.conn.wire == l.answers[0].bytes
  {
    assert l.answers[..0] == [] && AllAnswers(l.answers[..0]) == "";
    assert "" + l.answers[0].bytes == l.answers[0].bytes;
    assert l.conn.wire + "" == l.conn.wire;
  }

  lemma {:induction false} AnswersAddUp(env: Env, answers: seq<Answer>)
    requires ValidEnv(env) && answers != [] && AnswersRight(env, answers)
    ensures |AllAnswers(answers)| >= |answers[0].bytes| + |answers| - 1
    decreases |answers|
  {
    var n := |answers| - 1;
    AnswerIsNotEmpty(env, answers[n].status);
    hide AnswerBytes;
    assert BytesAt(env, answers, n);
    if n > 0 {
      forall k: nat | k < n ensures BytesAt(env, answers[..n], k) {
        assert BytesAt(env, answers, k);
      }
      AnswersAddUp(env, answers[..n]);
    }
  }

  lemma AnswerIsNotEmpty(env: Env, status: ParseResult)
    requires ValidEnv(env)
    ensures AnswerBytes(env, status) != ""
  {
    hide AnswerOf;
  }

  /** Exactly when a connection closed after draining has received the first answer and nothing else, no
      stream having been cut into: when no later call of `next` returned anything but "need more data". As
      long as no stream was cut into it has received all answers in order. */
  lemma WireIsFirstAnswer(env: Env, c: Closed)
    requires ValidEnv(env) && Answered(env, c.link) && !c.link.conn.HasPendingWrites()
    ensures |c.link.answers| == 1 <==>
            !c.link.spliced && c.link.conn.wire == AnswerBytes(env, c.link.answers[0].status)
    ensures !c.link.spliced ==> c.link.conn.wire == AllAnswers(c.link.answers)
  {
    var l := c.link;
    hide AnswerBytes, History, AllAnswers;
    assert l.conn.wire + "" == l.conn.wire;
    assert BytesAt(env, l.answers, 0);
    AnswersAddUp(env, l.answers);
    if |l.answers| == 1 {
      OneAnswer(l);
    }
  }

  /** The same condition on the bytes a client sent, one request and more: all had come by the first answer,
      or what is behind the request completes nothing. */
  lemma OneAnswerExactly(env: Env, c: Closed, w: WireRequest, extra: string)
    requires ValidEnv(env) && Answered(env, c.link)
    requires AllBelowLimits(env.limits, [w]) && c.link.received == Print(w) + extra
    requires !PassesLimit(env.limits, Fresh(extra))
    ensures |c.link.answers| == 1 <==>
            c.link.answers[0].at == |c.link.received| || Incomplete(env.limits, extra)
  {
    hide AllBelowLimits, Print, ParseNext, PassesLimit, Delivered, History, AnswersRight;
    var p :| LinkOk(env, c.link, p);
    AnsweredOnceExactly(env.limits, w, extra, c.link.answers, p);
  }

  lemma AnswerIsOwed(env: Env, w: WireRequest)
    requires ValidEnv(env)
    ensures AnswerBytes(env, Parsed(Received(w))) == OwedTo(env, w)
  {
  }

  /** A run of the server from its start, and whom it has closed. */
  ghost predicate Ran(env: Env, listeners: set<int>, steps: seq<Step>)
  {
    ValidEnv(env) && (StartIsGood(env, listeners); LegalRun(env, Start(listeners), steps))
  }

  ghost function ClosedBy(env: Env, listeners: set<int>, steps: seq<Step>): seq<Closed>
    requires Ran(env, listeners, steps)
  {
    StartIsGood(env, listeners);
    RunOf(env, Start(listeners), steps).closed
  }

  /** On this run the i-th connection closed had sent a request, well-formed and its line below the limit,
      and behind it only bytes that complete nothing, and was closed because its answer had drained. */
  ghost predicate ServedOne(env: Env, listeners: set<int>, steps: seq<Step>, i: nat, w: WireRequest, extra: string)
  {
    && Ran(env, listeners, steps) && i < |ClosedBy(env, listeners, steps)|
    && ClosedBy(env, listeners, steps)[i].flushed
    && ClosedBy(env, listeners, steps)[i].link.received == Print(w) + extra
    && AllBelowLimits(env.limits, [w]) && CompletesNothing(env.limits, extra)
  }

  /** On every run, whoever was closed because its output had drained is an answered connection with nothing
      pending, so what holds of those holds of it. */
  lemma ClosedIsAnswered(env: Env, listeners: set<int>, steps: seq<Step>, i: nat)
    requires Ran(env, listeners, steps) && i < |ClosedBy(env, listeners, steps)|
    requires ClosedBy(env, listeners, steps)[i].flushed
    ensures var c := ClosedBy(env, listeners, steps)[i]; Answered(env, c.link) && !c.link.conn.HasPendingWrites()
  {
    StartIsGood(env, listeners);
    assert ClosedOk(env, RunOf(env, Start(listeners), steps).closed[i]);
    hide Answered, RunOf, LegalRun;
  }

  /** Safety of the whole server: on every run, for every interleaving of connections, every cut of
      the incoming bytes, every short read and partial send, and however descriptors and addresses
      are reused, a connection that sent one well-formed request (its line below the limit), with nothing
      behind it that completes another or is refused, and was closed after draining has received exactly
      the answer of `dispatch` to that request. */
  lemma WholeServerSafety(env: Env, listeners: set<int>, steps: seq<Step>, i: nat, w: WireRequest, extra: string)
    requires ServedOne(env, listeners, steps, i, w, extra)
    ensures ClosedBy(env, listeners, steps)[i].link.conn.wire == OwedTo(env, w)
  {
    ClosedIsAnswered(env, listeners, steps, i);
    hide Answered, ClosedBy, Ran, OwedTo;
    ClosedGotItsAnswer(env, ClosedBy(env, listeners, steps)[i], w, extra);
  }

  /** A HEAD request is owed the head GET would have got, when the path has a GET route and handlers
      do not look at the verb. */
  lemma HeadIsOwedTheGetHead(env: Env, w: WireRequest)
    requires ValidEnv(env) && w.verb == "HEAD"
    requires forall j | 0 <= j < |env.routes| :: IgnoresVerb(env.routes[j].handler)
    requires exists j :: 0 <= j < |env.routes| && env.routes[j].verb == "GET" && Fits(env.routes[j].segments, SplitPath(w.path))
    ensures var r := Dispatch(env.routes, Received(w.(verb := "GET")), env.errorText);
            && OwedTo(env, w) == Head(r, env.order(WireHeaders(r)))
            && OwedTo(env, w.(verb := "GET")) == OwedTo(env, w) + r.BodyBytes()
  {
    hide SplitPath, Head, WireHeaders, IgnoresVerb, Fits, Dispatch;
    HeadIsGet(env.routes, Received(w), env.errorText);
    assert Received(w).(verb := "GET") == Received(w.(verb := "GET"));
    assert forall t: string :: t + "" == t;
  }

  // ---------------------------------------------------------------------------------------------
  // Batches and progress
  // ---------------------------------------------------------------------------------------------

  lemma OthersUntouched(env: Env, s: Server, step: Step, fd: int)
    requires Good(env, s) && LegalStep(s, step) && fd in s.connections
    requires forall f | f in s.connections :: s.connections[f].conn.Valid()
    requires step.Event? ==> step.event.fd != fd
    ensures var t := StepOf(env, s, step);
            && fd in t.connections && t.connections[fd] == s.connections[fd] && s.closed <= t.closed
  {
    hide Serve, Good;
  }

  lemma {:induction false} Untouched(env: Env, s: Server, steps: seq<Step>, fd: int)
    requires Good(env, s) && LegalRun(env, s, steps) && fd in s.connections
    requires forall i | 0 <= i < |steps| && steps[i].Event? :: steps[i].event.fd != fd
    ensures var t := RunOf(env, s, steps); fd in t.connections && t.connections[fd] == s.connections[fd]
    decreases |steps|
  {
    if steps != [] {
      hide StepOf, Good, LegalStep;
      GoodIsValid(env, s);
      StepKeepsGood(env, s, steps[0]);
      OthersUntouched(env, s, steps[0], fd);
      Untouched(env, StepOf(env, s, steps[0]), steps[1..], fd);
    }
  }

  lemma {:induction false} LegalPrefix(env: Env, s: Server, steps: seq<Step>, n: nat)
    requires Good(env, s) && LegalRun(env, s, steps) && n <= |steps|
    ensures LegalRun(env, s, steps[..n])
    decreases n
  {
    if n > 0 {
      hide StepOf, Good, LegalStep;
      GoodIsValid(env, s);
      StepKeepsGood(env, s, steps[0]);
      LegalPrefix(env, StepOf(env, s, steps[0]), steps[1..], n - 1);
      assert steps[..n][1..] == steps[1..][..n - 1];
    }
  }

  /** Within one batch of events with distinct descriptors, connections closed and accepted on the way
      included, each event reaches the very connection that was registered when `wait` returned. */
  lemma EventReachesItsConnection(env: Env, s: Server, batch: seq<Step>, i: nat)
    requires Good(env, s) && LegalRun(env, s, batch)
    requires i < |batch| && batch[i].Event? && batch[i].event.fd in s.connections
    requires forall j, k | 0 <= j < k < |batch| && batch[j].Event? && batch[k].Event? :: batch[j].event.fd != batch[k].event.fd
    ensures LegalRun(env, s, batch[..i])
    ensures var t := RunOf(env, s, batch[..i]); var fd := batch[i].event.fd;
            fd in t.connections && t.connections[fd] == s.connections[fd]
  {
    hide Good, LegalRun, RunOf;
    LegalPrefix(env, s, batch, i);
    Untouched(env, s, batch[..i], batch[i].event.fd);
  }

  /** A "writable" event whose `send` takes at least one byte if offered one; if it is a "readable" event
      too, there is nothing to read. */
  predicate Drains(step: Step)
  {
    && step.Event? && step.event.writable && !step.event.hangup && !step.event.error
    && (step.event.readable ==> step.kernel.recv.RecvAgain?)
    && AcceptsSome(step.kernel.second.send)
  }

  function EventsOn(steps: seq<Step>, fd: int): nat
  {
    if steps == [] then 0
    else (if steps[0].Event? && steps[0].event.fd == fd then 1 else 0) + EventsOn(steps[1..], fd)
  }

  /** One such event brings a connection with an answer pending closer to its end, or ends it. */
  lemma DrainStepProgress(env: Env, s: Server, step: Step)
    requires Good(env, s) && LegalStep(s, step) && Drains(step)
    requires forall f | f in s.connections :: s.connections[f].conn.Valid()
    requires step.event.fd in s.connections && s.connections[step.event.fd].conn.closing
    ensures var fd := step.event.fd; var l := s.connections[fd]; var t := StepOf(env, s, step);
            && s.closed <= t.closed
            && if fd in t.connections then
                 var m := t.connections[fd];
                 && m.conn.closing && SameHistory(m, l) && m.conn.Valid() && FlushesLeft(m.conn) < FlushesLeft(l.conn)
                 && m.conn.wire + m.conn.Pending() == l.conn.wire + l.conn.Pending()
               else
                 |t.closed| > |s.closed| && WasDrained(t.closed[|s.closed|], l)
  {
    var fd := step.event.fd;
    var l := s.connections[fd];
    assert Registered(env, s, fd);
    hide Good, Registered, FlushOf, LinkOk, Conn.HasPendingWrites, Conn.Pending, ReadStage;
    DrainsAccepts(step);
    FlushConserves(l.conn, step.kernel.second.gots, step.kernel.second.send);
    FlushProgress(l.conn, step.kernel.second.gots, step.kernel.second.send);
    DrainReads(env, l, ParserOf(s, l.addr), step);
    NothingPending(FlushLink(l, step.kernel.second).conn);
  }

  lemma DrainsAccepts(step: Step)
    requires Drains(step)
    ensures AcceptsSome(step.kernel.second.send)
  {
  }

  /** Nothing is read, and only then comes the flush. */
  lemma DrainReads(env: Env, l: Link, p: Parser, step: Step)
    requires ValidEnv(env) && l.conn.Valid() && Drains(step)
    ensures ReadStage(env, l, p, step.event, step.kernel) == Served(l, p, Keep)
  {
  }

  lemma NothingPending(c: Conn)
    requires c.Valid()
    ensures !c.HasPendingWrites() ==> c.wire + c.Pending() == c.wire
  {
  }

  /** The same connection, with the same bytes received and answers given. */
  predicate SameHistory(m: Link, l: Link)
  {
    m.id == l.id && m.received == l.received && m.answers == l.answers && m.spliced == l.spliced
  }

  /** The connection `l` was closed by draining, with all it still had to send on the wire. */
  predicate WasDrained(c: Closed, l: Link)
    requires l.conn.Valid()
  {
    c.flushed && SameHistory(c.link, l) && c.link.conn.wire == l.conn.wire + l.conn.Pending()
  }

  lemma StepClosedGrows(env: Env, s: Server, step: Step)
    requires ValidEnv(env) && forall f | f in s.connections :: s.connections[f].conn.Valid()
    ensures s.closed <= StepOf(env, s, step).closed
  {
    hide Serve;
  }

  lemma {:induction false} ClosedGrows(env: Env, s: Server, steps: seq<Step>)
    requires Good(env, s) && LegalRun(env, s, steps)
    ensures s.closed <= RunOf(env, s, steps).closed
    decreases |steps|
  {
    if steps != [] {
      hide Good, LegalStep, StepOf;
      GoodIsValid(env, s);
      StepKeepsGood(env, s, steps[0]);
      StepClosedGrows(env, s, steps[0]);
      ClosedGrows(env, StepOf(env, s, steps[0]), steps[1..]);
    }
  }

  /** Progress of the whole server: a connection with n bytes of its answer pending is drained and
      closed by at most n + 1 writable events in which the kernel takes a byte whenever one is
      offered, however they interleave with accepts and events of other connections. */
  lemma {:induction false} AnswerDrains(env: Env, s: Server, steps: seq<Step>, fd: int) returns (i: nat)
    requires Good(env, s) && LegalRun(env, s, steps)
    requires fd in s.connections && s.connections[fd].conn.Valid() && s.connections[fd].conn.closing
    requires forall j | 0 <= j < |steps| && steps[j].Event? && steps[j].event.fd == fd :: Drains(steps[j])
    requires EventsOn(steps, fd) >= |s.connections[fd].conn.Pending()| + 1
    ensures var t := RunOf(env, s, steps);
            i < |t.closed| && WasDrained(t.closed[i], s.connections[fd])
    decreases |steps|
  {
    hide Good, LegalStep, WasDrained, StepOf, Drains, Conn.HasPendingWrites, Conn.Pending;
    GoodIsValid(env, s);
    var step := steps[0];
    StepKeepsGood(env, s, step);
    var t := StepOf(env, s, step);
    GoodIsValid(env, t);
    var l := s.connections[fd];
    if step.Event? && step.event.fd == fd {
      DrainStepProgress(env, s, step);
      if fd in t.connections {
        StillPending(env, s, fd);
        StillPending(env, t, fd);
        i := AnswerDrains(env, t, steps[1..], fd);
        SameDebt(RunOf(env, t, steps[1..]).closed[i], t.connections[fd], l);
      } else {
        i := |s.closed|;
        ClosedGrows(env, t, steps[1..]);
      }
    } else {
      OthersUntouched(env, s, step, fd);
      i := AnswerDrains(env, t, steps[1..], fd);
    }
  }

  lemma SameDebt(c: Closed, m: Link, l: Link)
    requires m.conn.Valid() && l.conn.Valid() && WasDrained(c, m)
    requires SameHistory(m, l) && m.conn.wire + m.conn.Pending() == l.conn.wire + l.conn.Pending()
    ensures WasDrained(c, l)
  {
  }

  /** While an answer is owed the connection is registered for writing. */
  lemma StillPending(env: Env, s: Server, fd: int)
    requires Good(env, s) && fd in s.connections && s.connections[fd].conn.Valid() && s.connections[fd].conn.closing
    ensures s.connections[fd].conn.HasPendingWrites() && fd in s.interest && s.interest[fd].write
    ensures FlushesLeft(s.connections[fd].conn) == |s.connections[fd].conn.Pending()| + 1
  {
    assert Registered(env, s, fd);
  }
}
