/** The single-threaded reactor with the HTTP callbacks of the server wired in: which connection an
    event reaches, what it does to it, and when the connection is closed. Kernel results are inputs. */
module EventLoop {
  import opened HttpText
  import opened HttpParser
  import opened TcpConnection
  import opened HttpResponse
  import opened Router
  import opened Poller

  /** What the server is configured with. `order` is the order in which a header map is walked. */
  datatype Env = Env(
    limits: Limits, routes: seq<Route>, errorText: ErrorText, order: map<string, string> -> seq<string>)

  /** Handlers hand out windows that fit their file, and maps are walked key by key. */
  ghost predicate ValidEnv(env: Env)
  {
    && (forall request: HttpRequest :: Dispatch(env.routes, request, env.errorText).Valid())
    && (forall m: map<string, string> :: Enumerates(env.order(m), m))
  }

  /** A result of `next` that was answered, how many bytes had been received by then, the parser it left,
      and the bytes of the answer. */
  datatype Answer = Answer(status: ParseResult, at: nat, parser: Parser, bytes: string)

  /** A live connection: its serial number, its heap address, its fields, and as history the bytes
      received, the answers queued, and whether one was queued while a stream before it was unread. */
  datatype Link = Link(id: nat, addr: nat, conn: Conn, received: string, answers: seq<Answer>, spliced: bool)

  /** The kernel's part in one connection event: one `recv`, and the `pread`s and `send` of up to two flushes. */
  datatype Kernel = Kernel(recv: Recv, first: FlushInput, second: FlushInput)

  predicate LegalKernel(k: Kernel)
  {
    k.recv.Bytes? ==> 0 < |k.recv.data| <= READ_CHUNK
  }

  /** Why an event ends with the connection closed, if it does. */
  datatype Verdict = Keep | Broken | Flushed

  datatype Served = Served(link: Link, parser: Parser, verdict: Verdict)

  // ---------------------------------------------------------------------------------------------
  // The HTTP callback
  // ---------------------------------------------------------------------------------------------

  function AnswerOf(env: Env, status: ParseResult): HttpResponse
  {
    match status
    case Parsed(request) => Dispatch(env.routes, request, env.errorText)
    case _ => ErrorResponse(BadRequest, env.errorText("BAD_REQUEST", "Malformed HTTP request."))
  }

  function IsHead(status: ParseResult): bool
  {
    status.Parsed? && status.request.verb == "HEAD"
  }

  /** The bytes the server owes for a parse result. */
  function AnswerBytes(env: Env, status: ParseResult): string
    requires ValidEnv(env)
  {
    var r := AnswerOf(env, status);
    ResponseBytes(r, env.order(WireHeaders(r)), IsHead(status))
  }

  /** `onReadable`: the whole inbound buffer goes to the parser; a result other than "need more data"
      is answered, and the connection is told to close once drained. */
  function OnReadable(env: Env, l: Link, p: Parser): (r: (Link, Parser))
    requires ValidEnv(env) && l.conn.Valid()
    ensures r.0.conn.Valid()
  {
    var view := l.conn.inbound.Readable();
    var conn := l.conn.(inbound := l.conn.inbound.Consumed(|view|));
    var next := ParseNext(env.limits, p.Fed(view));
    if next.status.NeedMoreData? then (l.(conn := conn), next.p)
    else
      var r := AnswerOf(env, next.status);
      var answered := WriteResponseOf(conn, r, env.order(WireHeaders(r)), IsHead(next.status));
      var answer := Answer(next.status, |l.received|, next.p, AnswerBytes(env, next.status));
      (l.(conn := answered, answers := l.answers + [answer],
          spliced := l.spliced || conn.Unread() != ""), next.p)
  }

  // ---------------------------------------------------------------------------------------------
  // One event on one connection
  // ---------------------------------------------------------------------------------------------

  function FlushLink(l: Link, f: FlushInput): (m: Link)
    requires l.conn.Valid()
    ensures m.conn.Valid()
  {
    l.(conn := FlushOf(l.conn, f.gots, f.send))
  }

  function Broke(l: Link): Verdict { if l.conn.error then Broken else Keep }

  /** The reading part: `recv`, then the callback and an opportunistic flush if bytes came. */
  function ReadPart(env: Env, l: Link, p: Parser, hangup: bool, k: Kernel): (s: Served)
    requires ValidEnv(env) && l.conn.Valid()
    ensures s.link.conn.Valid()
  {
    var read := l.(conn := ReadIntoOf(l.conn, k.recv));
    match k.recv
    case Eof => Served(read, p, Broken)
    case RecvFailed => Served(read, p, Broken)
    case RecvAgain => Served(read, p, if hangup then Broken else Keep)
    case Bytes(data) =>
      var (handled, parser) := OnReadable(env, read.(received := l.received + data), p);
      if handled.conn.HasPendingWrites() then
        var flushed := FlushLink(handled, k.first);
        Served(flushed, parser, Broke(flushed))
      else Served(handled, parser, Keep)
  }

  function WritePart(s: Served, e: PollEvent, k: Kernel): (t: Served)
    requires s.link.conn.Valid()
    ensures t.link.conn.Valid()
  {
    if s.verdict.Keep? && e.writable && s.link.conn.HasPendingWrites() then
      var flushed := FlushLink(s.link, k.second);
      Served(flushed, s.parser, Broke(flushed))
    else s
  }

  function ClosePart(s: Served): (t: Served)
    requires s.link.conn.Valid()
    ensures t.link.conn.Valid()
  {
    if s.verdict.Keep? && s.link.conn.closing && !s.link.conn.HasPendingWrites() then s.(verdict := Flushed) else s
  }

  function ReadStage(env: Env, l: Link, p: Parser, e: PollEvent, k: Kernel): (s: Served)
    requires ValidEnv(env) && l.conn.Valid()
    ensures s.link.conn.Valid()
  {
    if e.error then Served(l, p, Broken)
    else if e.readable || e.hangup then ReadPart(env, l, p, e.hangup, k)
    else Served(l, p, Keep)
  }

  /** The decisions of one loop body, in order. */
  function Serve(env: Env, l: Link, p: Parser, e: PollEvent, k: Kernel): (s: Served)
    requires ValidEnv(env) && l.conn.Valid()
    ensures s.link.conn.Valid()
  {
    ClosePart(WritePart(ReadStage(env, l, p, e, k), e, k))
  }

  // ---------------------------------------------------------------------------------------------
  // The whole server
  // ---------------------------------------------------------------------------------------------

  /** A closed connection, and whether it was closed because its answer had drained. */
  datatype Closed = Closed(link: Link, flushed: bool)

  datatype Server = Server(
    connections: map<int, Link>, parsers: map<nat, Parser>, interest: map<int, Interest>,
    listeners: set<int>, accepted: nat, closed: seq<Closed>)

  function ParserOf(s: Server, addr: nat): Parser
  {
    if addr in s.parsers then s.parsers[addr] else Fresh("")
  }

  /** One thing the loop does: accept a connection, or work off one connection event. */
  datatype Step = Accept(fd: int, addr: nat) | Event(event: PollEvent, kernel: Kernel)

  /** The kernel and the allocator hand out descriptors and addresses that are not in use, but may
      have been before. */
  predicate LegalStep(s: Server, step: Step)
  {
    match step
    case Accept(fd, addr) =>
      fd !in s.connections && fd !in s.listeners && forall f | f in s.connections :: s.connections[f].addr != addr
    case Event(event, kernel) => event.fd !in s.listeners && LegalKernel(kernel)
  }

  function AcceptOf(s: Server, fd: int, addr: nat): Server
  {
    s.(connections := s.connections[fd := Link(s.accepted, addr, NEW_CONNECTION, "", [], false)],
       interest := s.interest[fd := Interest(true, false)],
       accepted := s.accepted + 1)
  }

  /** The outcome of an event is recorded: the connection kept with its interest refreshed, or closed
      and forgotten together with its parser. */
  function Record(s: Server, fd: int, served: Served, fed: bool): Server
    requires served.link.conn.Valid()
  {
    var parsers := if fed then s.parsers[served.link.addr := served.parser] else s.parsers;
    if served.verdict.Keep? then
      s.(connections := s.connections[fd := served.link],
         parsers := parsers,
         interest := s.interest[fd := Interest(true, served.link.conn.HasPendingWrites())])
    else
      s.(connections := s.connections - {fd},
         parsers := parsers - {served.link.addr},
         interest := s.interest - {fd},
         closed := s.closed + [Closed(served.link, served.verdict.Flushed?)])
  }

  predicate Feeds(e: PollEvent, k: Kernel) { !e.error && (e.readable || e.hangup) && k.recv.Bytes? }

  function EventOf(env: Env, s: Server, e: PollEvent, k: Kernel): Server
    requires ValidEnv(env) && forall f | f in s.connections :: s.connections[f].conn.Valid()
  {
    if e.fd !in s.connections then s
    else
      var link := s.connections[e.fd];
      Record(s, e.fd, Serve(env, link, ParserOf(s, link.addr), e, k), Feeds(e, k))
  }

  function StepOf(env: Env, s: Server, step: Step): Server
    requires ValidEnv(env) && forall f | f in s.connections :: s.connections[f].conn.Valid()
  {
    match step
    case Accept(fd, addr) => AcceptOf(s, fd, addr)
    case Event(event, kernel) => EventOf(env, s, event, kernel)
  }

  ghost predicate Sound(env: Env, s: Server)
  {
    ValidEnv(env) && forall f | f in s.connections :: s.connections[f].conn.Valid()
  }

  lemma StepKeepsSound(env: Env, s: Server, step: Step)
    requires Sound(env, s)
    ensures Sound(env, StepOf(env, s, step))
  {
    hide Serve;
  }

  function RunSteps(env: Env, s: Server, steps: seq<Step>): (t: Server)
    requires Sound(env, s)
    ensures Sound(env, t)
    decreases |steps|
  {
    if steps == [] then s
    else
      StepKeepsSound(env, s, steps[0]);
      RunSteps(env, StepOf(env, s, steps[0]), steps[1..])
  }

  /** One event of a batch, with the kernel's answers to the calls its handling makes: the accepted
      descriptors and addresses if it is a listener's, the reads and writes otherwise. */
  datatype Turn = Turn(event: PollEvent, kernel: Kernel, arrivals: seq<(int, nat)>)

  function Accepts(arrivals: seq<(int, nat)>): (steps: seq<Step>)
    decreases |arrivals|
  {
    if arrivals == [] then [] else [Accept(arrivals[0].0, arrivals[0].1)] + Accepts(arrivals[1..])
  }

  /** The steps a batch amounts to. */
  function StepsOf(listeners: set<int>, turns: seq<Turn>): seq<Step>
    decreases |turns|
  {
    if turns == [] then []
    else
      (if turns[0].event.fd in listeners then Accepts(turns[0].arrivals) else [Event(turns[0].event, turns[0].kernel)])
      + StepsOf(listeners, turns[1..])
  }

  lemma {:induction false} RunConcat(env: Env, s: Server, a: seq<Step>, b: seq<Step>)
    requires Sound(env, s)
    ensures RunSteps(env, s, a + b) == RunSteps(env, RunSteps(env, s, a), b)
    decreases |a|
  {
    hide StepOf;
    if a == [] {
      assert a + b == b;
    } else {
      StepKeepsSound(env, s, a[0]);
      RunConcat(env, StepOf(env, s, a[0]), a[1..], b);
      assert (a + b)[1..] == a[1..] + b;
    }
  }

  lemma OneStep(env: Env, s: Server, step: Step)
    requires Sound(env, s)
    ensures RunSteps(env, s, [step]) == StepOf(env, s, step)
  {
    StepKeepsSound(env, s, step);
    hide StepOf, Sound;
  }

  lemma {:induction false} AcceptsMeaning(arrivals: seq<(int, nat)>)
    ensures |Accepts(arrivals)| == |arrivals|
    ensures forall i | 0 <= i < |arrivals| :: Accepts(arrivals)[i] == Accept(arrivals[i].0, arrivals[i].1)
    decreases |arrivals|
  {
    if arrivals != [] {
      AcceptsMeaning(arrivals[1..]);
    }
  }

  lemma {:induction false} BatchSplits(listeners: set<int>, a: seq<Turn>, b: seq<Turn>)
    ensures StepsOf(listeners, a + b) == StepsOf(listeners, a) + StepsOf(listeners, b)
    decreases |a|
  {
    hide Accepts;
    if a == [] {
      assert a + b == b;
    } else {
      BatchSplits(listeners, a[1..], b);
      assert (a + b)[1..] == a[1..] + b;
    }
  }

  /** A batch is worked off in order, and each of its events leads to its own steps: a listener's to one
      accept for each arrival, any other to that event once. */
  lemma BatchMeaning(listeners: set<int>, turns: seq<Turn>, i: nat)
    requires i < |turns|
    ensures var own := if turns[i].event.fd in listeners then Accepts(turns[i].arrivals)
                       else [Event(turns[i].event, turns[i].kernel)];
            StepsOf(listeners, turns) == StepsOf(listeners, turns[..i]) + own + StepsOf(listeners, turns[i + 1..])
  {
    hide Accepts;
    assert turns == turns[..i] + [turns[i]] + turns[i + 1..];
    BatchSplits(listeners, turns[..i] + [turns[i]], turns[i + 1..]);
    BatchSplits(listeners, turns[..i], [turns[i]]);
    OneTurn(listeners, turns[i]);
  }

  lemma OneTurn(listeners: set<int>, turn: Turn)
    ensures StepsOf(listeners, [turn]) ==
            if turn.event.fd in listeners then Accepts(turn.arrivals) else [Event(turn.event, turn.kernel)]
  {
    hide Accepts;
    assert [turn][1..] == [];
  }

  // ---------------------------------------------------------------------------------------------
  // The class
  // ---------------------------------------------------------------------------------------------

  class EventLoop {
    const env: Env
    var connections: map<int, Link>
    var parsers: map<nat, Parser>
    var interest: map<int, Interest>
    var listeners: set<int>
    var accepted: nat
    ghost var closed: seq<Closed>

    ghost function View(): Server
      reads this
    {
      Server(connections, parsers, interest, listeners, accepted, closed)
    }

    ghost predicate Valid()
      reads this
    {
      ValidEnv(env) && forall f | f in connections :: connections[f].conn.Valid()
    }

    constructor (env: Env)
      requires ValidEnv(env)
      ensures Valid() && this.env == env && View() == Server(map[], map[], map[], {}, 0, [])
    {
      this.env := env;
      connections, parsers, interest, listeners, accepted, closed := map[], map[], map[], {}, 0, [];
    }

    method Listen(fd: int)
      requires Valid() && fd !in connections
      modifies this
      ensures Valid() && View() == old(View()).(listeners := listeners, interest := interest)
      ensures listeners == old(listeners) + {fd} && interest == old(interest)[fd := Interest(true, false)]
    {
      listeners := listeners + {fd};
      interest := interest[fd := Interest(true, false)];
    }

    /** The body of `run` after `wait`: each event in turn, a listener's by accepting, a connection's
        by serving it. */
    method HandleBatch(turns: seq<Turn>)
      requires Valid()
      modifies this
      ensures Valid() && View() == RunSteps(env, old(View()), StepsOf(old(listeners), turns))
    {
      hide EventOf, AcceptOf;
      assert turns[0..] == turns;
      for i := 0 to |turns|
        invariant Valid() && listeners == old(listeners)
        invariant RunSteps(env, old(View()), StepsOf(listeners, turns)) == RunSteps(env, View(), StepsOf(listeners, turns[i..]))
      {
        var turn := turns[i];
        ghost var later := StepsOf(listeners, turns[i + 1..]);
        assert turns[i..][1..] == turns[i + 1..];
        if turn.event.fd in listeners {
          RunConcat(env, View(), Accepts(turn.arrivals), later);
          AcceptNewConnections(turn.arrivals);
        } else {
          RunConcat(env, View(), [Event(turn.event, turn.kernel)], later);
          OneStep(env, View(), Event(turn.event, turn.kernel));
          HandleEvent(turn.event, turn.kernel);
        }
      }
    }

    /** `acceptNewConnections`: until the listener reports EAGAIN. */
    method AcceptNewConnections(arrivals: seq<(int, nat)>)
      requires Valid()
      modifies this
      ensures Valid() && listeners == old(listeners) && View() == RunSteps(env, old(View()), Accepts(arrivals))
    {
      assert arrivals[0..] == arrivals;
      for i := 0 to |arrivals|
        invariant Valid() && listeners == old(listeners)
        invariant RunSteps(env, old(View()), Accepts(arrivals)) == RunSteps(env, View(), Accepts(arrivals[i..]))
      {
        var (fd, addr) := arrivals[i];
        interest := interest[fd := Interest(true, false)];
        connections := connections[fd := Link(accepted, addr, NEW_CONNECTION, "", [], false)];
        accepted := accepted + 1;
        assert arrivals[i..][1..] == arrivals[i + 1..];
      }
    }

    /** `closeConnection`: unregister, let `onClosed` drop the parser, destroy. */
    method CloseConnection(fd: int, link: Link, flushed: bool)
      requires Valid() && fd in connections
      modifies this
      ensures Valid()
      ensures View() == old(View()).(
                connections := old(connections) - {fd}, parsers := old(parsers) - {link.addr},
                interest := old(interest) - {fd}, closed := old(closed) + [Closed(link, flushed)])
    {
      interest := interest - {fd};
      parsers := parsers - {link.addr};
      connections := connections - {fd};
      closed := closed + [Closed(link, flushed)];
    }

    /** The loop body for an event on a connection. */
    method HandleEvent(e: PollEvent, k: Kernel)
      requires Valid()
      modifies this
      ensures Valid() && listeners == old(listeners) && View() == EventOf(env, old(View()), e, k)
    {
      hide Serve, Record;
      if e.fd !in connections { return; }
      var link := connections[e.fd];
      var parser := if link.addr in parsers then parsers[link.addr] else Fresh("");
      var served := ServeEvent(link, parser, e, k);
      RecordOutcome(e.fd, served, Feeds(e, k));
    }

    method RecordOutcome(fd: int, served: Served, fed: bool)
      requires Valid() && fd in connections && served.link.conn.Valid()
      modifies this
      ensures Valid() && listeners == old(listeners) && View() == Record(old(View()), fd, served, fed)
    {
      if fed {
        parsers := parsers[served.link.addr := served.parser];
      }
      if !served.verdict.Keep? {
        CloseConnection(fd, served.link, served.verdict.Flushed?);
      } else {
        interest := interest[fd := Interest(true, served.link.conn.HasPendingWrites())];
        connections := connections[fd := served.link];
      }
    }

    method ServeEvent(link: Link, parser: Parser, e: PollEvent, k: Kernel) returns (served: Served)
      requires ValidEnv(env) && link.conn.Valid()
      ensures served == Serve(env, link, parser, e, k) && served.link.conn.Valid()
    {
      hide OnReadable, FlushLink;
      served := Served(link, parser, if e.error then Broken else Keep);
      if served.verdict.Keep? && (e.readable || e.hangup) {
        served := ReadOnce(link, parser, e.hangup, k);
      }
      assert served == ReadStage(env, link, parser, e, k);
      if served.verdict.Keep? && e.writable && served.link.conn.HasPendingWrites() {
        var flushed := FlushLink(served.link, k.second);
        served := Served(flushed, served.parser, Broke(flushed));
      }
      if served.verdict.Keep? && served.link.conn.closing && !served.link.conn.HasPendingWrites() {
        served := served.(verdict := Flushed);
      }
    }

    method ReadOnce(link: Link, parser: Parser, hangup: bool, k: Kernel) returns (served: Served)
      requires ValidEnv(env) && link.conn.Valid()
      ensures served == ReadPart(env, link, parser, hangup, k)
    {
      var read := link.(conn := ReadIntoOf(link.conn, k.recv));
      match k.recv
      case Eof => served := Served(read, parser, Broken);
      case RecvFailed => served := Served(read, parser, Broken);
      case RecvAgain => served := Served(read, parser, if hangup then Broken else Keep);
      case Bytes(data) =>
        var (handled, next) := OnReadable(env, read.(received := link.received + data), parser);
        served := Served(handled, next, Keep);
        if handled.conn.HasPendingWrites() {
          var flushed := FlushLink(handled, k.first);
          served := Served(flushed, next, Broke(flushed));
        }
    }
  }
}
