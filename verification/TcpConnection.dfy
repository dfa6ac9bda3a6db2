/** One accepted connection: inbound and outbound buffers, an optional streaming body that refills
    the outbound buffer, and one partial `send` per flush. */
module TcpConnection {
  import opened Common
  import opened ByteBuffer
  import opened FileStream

  const READ_CHUNK: nat := 64 * 1024

  /** The kernel's answer to `recv`. */
  datatype Recv = Bytes(data: string) | Eof | RecvAgain | RecvFailed

  /** The kernel's answer to `send`; it accepts at most what it is offered. */
  datatype Send = Accepted(count: nat) | SendAgain | SendFailed

  /** The fields of a connection. `wire` is what the kernel has accepted so far. */
  datatype Conn = Conn(
    inbound: Buf, outbound: Buf, stream: Option<Stream>,
    error: bool, closing: bool, wire: string)
  {
    predicate Valid()
    {
      inbound.Valid() && outbound.Valid() && (stream.Some? ==> stream.value.Valid())
    }

    function Queued(): string
      requires Valid()
    {
      outbound.Readable()
    }

    /** What the streaming body has still to deliver. */
    function Unread(): string
      requires Valid()
    {
      if stream.Some? then stream.value.Rest() else ""
    }

    /** Everything still to be sent: the outbound buffer, then the unread stream. */
    function Pending(): string
      requires Valid()
    {
      outbound.Readable() + Unread()
    }

    predicate HasPendingWrites()
      requires Valid()
    {
      outbound.Readable() != "" || stream.Some?
    }
  }

  const NEW_CONNECTION := Conn(EMPTY, EMPTY, None, false, false, "")

  function ReadIntoOf(c: Conn, r: Recv): (d: Conn)
    requires c.Valid()
    ensures d.Valid()
  {
    match r
    case Bytes(data) => c.(inbound := c.inbound.Appended(data))
    case RecvFailed => c.(error := true)
    case _ => c
  }

  function QueueWriteOf(c: Conn, data: string): (d: Conn)
    requires c.Valid()
    ensures d.Valid()
  {
    c.(outbound := c.outbound.Appended(data))
  }

  function First(gots: seq<nat>): nat { if gots == [] then READ_CHUNK else gots[0] }

  function Others(gots: seq<nat>): seq<nat> { if gots == [] then [] else gots[1..] }

  /** The refill loop: pull chunks until one chunk is queued or the stream ends. `gots` are the
      kernel's choices for the successive `pread` calls. */
  function Refill(c: Conn, gots: seq<nat>): (d: Conn)
    requires c.Valid()
    ensures d.Valid()
    decreases if c.stream.Some? then 1 + c.stream.value.remaining else 0
  {
    if c.stream.None? || |c.Queued()| >= READ_CHUNK then c
    else
      ReadConserves(c.stream.value, READ_CHUNK, First(gots));
      var (data, rest) := Read(c.stream.value, READ_CHUNK, First(gots));
      if data == "" then c.(stream := None)
      else Refill(c.(outbound := c.outbound.Appended(data), stream := Some(rest)), Others(gots))
  }

  function SendOf(c: Conn, s: Send): (d: Conn)
    requires c.Valid()
    ensures d.Valid()
  {
    match s
    case Accepted(count) =>
      var n := Min(count, |c.Queued()|);
      c.(outbound := c.outbound.Consumed(n), wire := c.wire + c.Queued()[..n])
    case SendFailed => c.(error := true)
    case SendAgain => c
  }

  /** `flushOutbound`: refill, then at most one `send`. */
  function FlushOf(c: Conn, gots: seq<nat>, s: Send): (d: Conn)
    requires c.Valid()
    ensures d.Valid()
  {
    var filled := Refill(c, gots);
    if filled.Queued() == "" then filled else SendOf(filled, s)
  }

  predicate AcceptsSome(s: Send) { s.Accepted? && s.count > 0 }

  // ---------------------------------------------------------------------------------------------
  // Conservation, memory bound, progress
  // ---------------------------------------------------------------------------------------------

  lemma RestLength(s: Stream)
    requires s.Valid()
    ensures |s.Rest()| == s.remaining
  {
  }

  /** What refilling keeps and reaches: nothing is lost or reordered, a chunk is queued or the stream
      has ended, and the queue never exceeds one byte short of two chunks (or what it already held). */
  lemma {:induction false} RefillKeeps(c: Conn, gots: seq<nat>)
    requires c.Valid()
    ensures var d := Refill(c, gots);
            && d.Pending() == c.Pending()
            && d == c.(outbound := d.outbound, stream := d.stream)
            && (d.stream.None? || |d.Queued()| >= READ_CHUNK)
            && |c.Queued()| <= |d.Queued()| <= Max(|c.Queued()|, 2 * READ_CHUNK - 1)
            && (c.stream.None? ==> d == c)
    decreases if c.stream.Some? then 1 + c.stream.value.remaining else 0
  {
    hide Read, Buf.Appended, Stream.Rest;
    if c.stream.Some? && |c.Queued()| < READ_CHUNK {
      ReadConserves(c.stream.value, READ_CHUNK, First(gots));
      RestLength(c.stream.value);
      var (data, rest) := Read(c.stream.value, READ_CHUNK, First(gots));
      if data == "" {
        assert c.stream.value.Rest() == "";
      } else {
        AppendedReadable(c.outbound, data);
        var next := c.(outbound := c.outbound.Appended(data), stream := Some(rest));
        assert next.Pending() == c.Pending();
        RefillKeeps(next, Others(gots));
      }
    }
  }

  lemma SendConserves(c: Conn, s: Send)
    requires c.Valid()
    ensures var d := SendOf(c, s);
            && d.wire + d.Pending() == c.wire + c.Pending()
            && |d.wire| >= |c.wire| && |d.Queued()| <= |c.Queued()|
            && d.inbound == c.inbound && d.closing == c.closing && d.stream == c.stream
            && (AcceptsSome(s) && c.Queued() != "" ==> |d.Pending()| < |c.Pending()| && d.error == c.error)
  {
    hide Buf.Consumed;
    if s.Accepted? {
      var n := Min(s.count, |c.Queued()|);
      ConsumedReadable(c.outbound, n);
      var q, rest := c.Queued(), if c.stream.Some? then c.stream.value.Rest() else "";
      assert c.wire + (q + rest) == (c.wire + q[..n]) + (q[n..] + rest);
    }
  }

  /** Bytes on the wire followed by bytes still pending never change by flushing, whatever the kernel does. */
  lemma FlushConserves(c: Conn, gots: seq<nat>, s: Send)
    requires c.Valid()
    ensures var d := FlushOf(c, gots, s);
            && d.wire + d.Pending() == c.wire + c.Pending()
            && |d.wire| >= |c.wire|
            && d.inbound == c.inbound && d.closing == c.closing
  {
    hide SendOf, Refill;
    RefillKeeps(c, gots);
    var filled := Refill(c, gots);
    SendConserves(filled, s);
    assert filled.wire + filled.Pending() == c.wire + c.Pending();
  }

  /** What `recv` brings goes behind what is unread, and only its failure marks the connection broken. */
  lemma ReadMeaning(c: Conn, r: Recv)
    requires c.Valid()
    ensures var d := ReadIntoOf(c, r);
            && d.inbound.Readable() == c.inbound.Readable() + (if r.Bytes? then r.data else "")
            && (d.error <==> c.error || r.RecvFailed?)
            && d == c.(inbound := d.inbound, error := d.error)
  {
    if r.Bytes? {
      AppendedReadable(c.inbound, r.data);
    }
    assert c.inbound.Readable() + "" == c.inbound.Readable();
  }

  /** A flush marks the connection broken exactly when `send` fails with something to send. */
  lemma FlushErrors(c: Conn, gots: seq<nat>, s: Send)
    requires c.Valid()
    ensures FlushOf(c, gots, s).error <==> c.error || (s.SendFailed? && c.Pending() != "")
  {
    hide Refill, Buf.Readable, Buf.Consumed;
    RefillKeeps(c, gots);
    var d := Refill(c, gots);
    if d.Queued() == "" {
      assert d.Pending() == "";
    } else {
      assert |d.Pending()| >= |d.Queued()|;
    }
  }

  /** What fits one `send` goes out with one flush. */
  lemma FlushWhole(c: Conn, gots: seq<nat>, s: Send)
    requires c.Valid() && c.stream.None? && s.Accepted? && s.count >= |c.Queued()|
    ensures var d := FlushOf(c, gots, s);
            d.wire == c.wire + c.Pending() && !d.HasPendingWrites() && d.error == c.error && d.closing == c.closing
  {
    hide Buf.Readable, Buf.Consumed;
    RefillKeeps(c, gots);
    ConsumedReadable(c.outbound, |c.Queued()|);
    assert c.Queued()[..|c.Queued()|] == c.Queued() && c.Queued() + "" == c.Queued();
  }

  /** Nor does the queue outgrow what it held, or two chunks less a byte. */
  lemma FlushBound(c: Conn, gots: seq<nat>, s: Send)
    requires c.Valid()
    ensures |FlushOf(c, gots, s).Queued()| <= Max(|c.Queued()|, 2 * READ_CHUNK - 1)
  {
    hide SendOf, Refill;
    RefillKeeps(c, gots);
    SendConserves(Refill(c, gots), s);
  }

  /** The bytes the outbound vector holds, slack included, stay within twice the queue bound. */
  lemma {:induction false} RefillStorage(c: Conn, gots: seq<nat>, most: nat)
    requires c.Valid()
    requires |c.outbound.storage| <= 2 * most && |c.Queued()| <= most && 2 * READ_CHUNK - 1 <= most
    ensures |Refill(c, gots).outbound.storage| <= 2 * most
    decreases if c.stream.Some? then 1 + c.stream.value.remaining else 0
  {
    hide Read, Buf.Appended;
    if c.stream.Some? && |c.Queued()| < READ_CHUNK {
      ReadConserves(c.stream.value, READ_CHUNK, First(gots));
      var (data, rest) := Read(c.stream.value, READ_CHUNK, First(gots));
      if data != "" {
        StorageBound(c.outbound, data, most);
        AppendedReadable(c.outbound, data);
        RefillStorage(c.(outbound := c.outbound.Appended(data), stream := Some(rest)), Others(gots), most);
      }
    }
  }

  /** One flush as the kernel decides it. */
  datatype FlushInput = FlushInput(gots: seq<nat>, send: Send)

  function FlushAll(c: Conn, inputs: seq<FlushInput>): (d: Conn)
    requires c.Valid()
    ensures d.Valid()
    decreases |inputs|
  {
    if inputs == [] then c else FlushAll(FlushOf(c, inputs[0].gots, inputs[0].send), inputs[1..])
  }

  /** Streaming a response of any size: at every point wire ++ pending is head ++ body, and memory is
      bounded by the head and two chunks, independent of the length of the body. */
  lemma {:induction false} StreamingBound(c: Conn, inputs: seq<FlushInput>, most: nat)
    requires c.Valid()
    requires |c.Queued()| <= most && |c.outbound.storage| <= 2 * most && 2 * READ_CHUNK - 1 <= most
    ensures var d := FlushAll(c, inputs);
            && d.wire + d.Pending() == c.wire + c.Pending()
            && |d.Queued()| <= most && |d.outbound.storage| <= 2 * most
    decreases |inputs|
  {
    if inputs != [] {
      var d := FlushOf(c, inputs[0].gots, inputs[0].send);
      FlushConserves(c, inputs[0].gots, inputs[0].send);
      FlushBound(c, inputs[0].gots, inputs[0].send);
      RefillStorage(c, inputs[0].gots, most);
      StreamingBound(d, inputs[1..], most);
    }
  }

  /** A connection whose head is queued and whose stream is set, before the first flush. */
  lemma StreamingStart(head: string, s: Stream, inputs: seq<FlushInput>)
    requires s.Valid() && head != ""
    ensures var c := QueueWriteOf(NEW_CONNECTION, head).(stream := Some(s));
            var d := FlushAll(c, inputs);
            && d.wire + d.Pending() == head + s.Rest()
            && |d.Queued()| <= Max(|head|, 131071)
            && |d.outbound.storage| <= 2 * Max(|head|, 131071)
  {
    var c := QueueWriteOf(NEW_CONNECTION, head).(stream := Some(s));
    AppendedReadable(EMPTY, head);
    assert c.Queued() == head;
    StreamingBound(c, inputs, Max(|head|, 131071));
    assert "" + c.Pending() == head + s.Rest();
  }

  /** Flushes still needed when each accepted `send` takes at least one byte. */
  function FlushesLeft(c: Conn): nat
    requires c.Valid()
  {
    if c.HasPendingWrites() then |c.Pending()| + 1 else 0
  }

  lemma FlushProgress(c: Conn, gots: seq<nat>, s: Send)
    requires c.Valid() && AcceptsSome(s) && c.HasPendingWrites()
    ensures FlushesLeft(FlushOf(c, gots, s)) < FlushesLeft(c)
    ensures FlushOf(c, gots, s).error == c.error
  {
    hide SendOf, Refill;
    RefillKeeps(c, gots);
    SendConserves(Refill(c, gots), s);
  }

  /** With n bytes to send, n + 1 flushes in which the kernel takes a byte whenever one is offered
      drain the connection, with everything on the wire. */
  lemma {:induction false} FlushesDrain(c: Conn, inputs: seq<FlushInput>)
    requires c.Valid()
    requires forall i | 0 <= i < |inputs| :: AcceptsSome(inputs[i].send)
    requires |inputs| >= FlushesLeft(c)
    ensures var d := FlushAll(c, inputs);
            !d.HasPendingWrites() && d.wire == c.wire + c.Pending() && d.error == c.error
    decreases |inputs|
  {
    if inputs == [] {
      assert c.wire + c.Pending() == c.wire;
    } else {
      var d := FlushOf(c, inputs[0].gots, inputs[0].send);
      FlushConserves(c, inputs[0].gots, inputs[0].send);
      if c.HasPendingWrites() {
        FlushProgress(c, inputs[0].gots, inputs[0].send);
      } else {
        assert d == c;
      }
      FlushesDrain(d, inputs[1..]);
    }
  }

  // ---------------------------------------------------------------------------------------------
  // The class
  // ---------------------------------------------------------------------------------------------

  class TcpConnection {
    const inbound: Buffer
    const outbound: Buffer
    var streamingBody: FileRangeResponseBody?
    var error: bool
    var closeAfterFlush: bool
    ghost var wire: string

    ghost function Repr(): set<object>
      reads this
    {
      {this, inbound, outbound} + if streamingBody != null then {streamingBody} else {}
    }

    ghost function View(): Conn
      reads this, Repr()
    {
      Conn(inbound.View(), outbound.View(),
           if streamingBody == null then None else Some(streamingBody.View()),
           error, closeAfterFlush, wire)
    }

    ghost predicate Valid()
      reads this, Repr()
    {
      && inbound != outbound
      && View().Valid()
      && (streamingBody != null ==> |streamingBody.file| <= U64_MAX)
    }

    constructor ()
      ensures Valid() && fresh(Repr()) && View() == NEW_CONNECTION
    {
      inbound := new Buffer();
      outbound := new Buffer();
      streamingBody, error, closeAfterFlush, wire := null, false, false, "";
    }

    method ReadInto(r: Recv) returns (n: int)
      requires Valid()
      modifies this, inbound
      ensures Valid() && streamingBody == old(streamingBody)
      ensures View() == ReadIntoOf(old(View()), r)
      ensures n == match r case Bytes(data) => |data| case Eof => 0 case _ => -1
    {
      match r
      case Bytes(data) =>
        inbound.Append(data);
        n := |data|;
      case Eof => n := 0;
      case RecvAgain => n := -1;
      case RecvFailed =>
        error := true;
        n := -1;
    }

    method QueueWrite(data: string)
      requires Valid()
      modifies outbound
      ensures Valid() && View() == QueueWriteOf(old(View()), data) && streamingBody == old(streamingBody)
    {
      outbound.Append(data);
    }

    method SetStreamingBody(body: FileRangeResponseBody)
      requires Valid() && body.View().Valid() && |body.file| <= U64_MAX
      modifies this
      ensures Valid() && streamingBody == body
      ensures View() == old(View()).(stream := Some(body.View()))
    {
      streamingBody := body;
    }

    method CloseAfterFlush()
      requires Valid()
      modifies this
      ensures Valid() && View() == old(View()).(closing := true) && streamingBody == old(streamingBody)
    {
      closeAfterFlush := true;
    }

    method FlushOutbound(gots: seq<nat>, s: Send)
      requires Valid()
      modifies Repr()
      ensures Valid() && View() == FlushOf(old(View()), gots, s)
      ensures streamingBody == null || streamingBody == old(streamingBody)
    {
      hide Read, Buf.Appended, Buf.Consumed, Stream.Rest;
      var left := gots;
      while true
        invariant Valid()
        invariant streamingBody == null || streamingBody == old(streamingBody)
        invariant Refill(old(View()), gots) == Refill(View(), left)
        decreases if streamingBody != null then 1 + streamingBody.remaining as int else 0
      {
        if streamingBody == null { break; }
        var queued := outbound.ReadableBytes();
        if queued >= READ_CHUNK { break; }
        ghost var before := View();
        ReadConserves(before.stream.value, READ_CHUNK, First(left));
        var data := streamingBody.ReadInto(READ_CHUNK, First(left));
        if data == "" {
          streamingBody := null;
          assert View() == before.(stream := None);
          break;
        }
        outbound.Append(data);
        left := Others(left);
      }
      assert View() == Refill(old(View()), gots);
      var queued := outbound.ReadableBytes();
      if queued == 0 { return; }
      SendOnce(s, queued);
    }

    method SendOnce(s: Send, queued: nat)
      requires Valid() && queued == |View().Queued()|
      modifies this, outbound
      ensures Valid() && View() == SendOf(old(View()), s) && streamingBody == old(streamingBody)
    {
      match s
      case Accepted(count) =>
        var n := Min(count, queued);
        wire := wire + outbound.View().Readable()[..n];
        outbound.Consume(n);
      case SendAgain =>
      case SendFailed => error := true;
    }
  }
}
