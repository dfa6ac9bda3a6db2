/** Responses and their serialization onto a connection (`writeHttpResponse`). */
module HttpResponse {
  import opened Common
  import opened Decimal
  import opened ByteBuffer
  import opened FileStream
  import opened TcpConnection

  datatype HttpStatus =
    | Ok | Created | NoContent | PartialContent | BadRequest | NotFound
    | MethodNotAllowed | RangeNotSatisfiable | InternalServerError

  function Code(s: HttpStatus): nat
  {
    match s
    case Ok => 200
    case Created => 201
    case NoContent => 204
    case PartialContent => 206
    case BadRequest => 400
    case NotFound => 404
    case MethodNotAllowed => 405
    case RangeNotSatisfiable => 416
    case InternalServerError => 500
  }

  function ReasonPhrase(s: HttpStatus): string
  {
    match s
    case Ok => "OK"
    case Created => "Created"
    case NoContent => "No Content"
    case PartialContent => "Partial Content"
    case BadRequest => "Bad Request"
    case NotFound => "Not Found"
    case MethodNotAllowed => "Method Not Allowed"
    case RangeNotSatisfiable => "Range Not Satisfiable"
    case InternalServerError => "Internal Server Error"
  }

  /** A body is either held in memory or pulled from a file window. */
  datatype Body = Full(bytes: string) | Streaming(stream: Stream)

  datatype HttpResponse = HttpResponse(status: HttpStatus, headers: map<string, string>, body: Body)
  {
    predicate Valid() { body.Streaming? ==> body.stream.Valid() }

    function BodyBytes(): string
      requires Valid()
    {
      match body case Full(bytes) => bytes case Streaming(stream) => stream.Rest()
    }
  }

  function BodyResponse(status: HttpStatus, contentType: string, text: string): HttpResponse
  {
    HttpResponse(status, map["Content-Type" := contentType, "Content-Length" := ToText(|text|)], Full(text))
  }

  /** `HttpResponse::error`; the JSON text of code and message is the caller's `errorText`. */
  function ErrorResponse(status: HttpStatus, errorText: string): HttpResponse
  {
    BodyResponse(status, "application/json", errorText)
  }

  /** The order in which an unordered map is walked: every key once. */
  ghost predicate Enumerates(keys: seq<string>, m: map<string, string>)
  {
    && (forall k :: k in keys <==> k in m)
    && (forall i, j | 0 <= i < j < |keys| :: keys[i] != keys[j])
  }

  /** The headers as they go on the wire. */
  function WireHeaders(r: HttpResponse): map<string, string>
  {
    (if r.body.Full? then r.headers["Content-Length" := ToText(|r.body.bytes|)] else r.headers)
      ["Connection" := "close"]
  }

  function StatusLine(s: HttpStatus): string
  {
    "HTTP/1.1 " + ToText(Code(s)) + " " + ReasonPhrase(s)
  }

  function HeaderLines(keys: seq<string>, m: map<string, string>): string
    requires forall k | k in keys :: k in m
  {
    if keys == [] then "" else keys[0] + ": " + m[keys[0]] + "\r\n" + HeaderLines(keys[1..], m)
  }

  function Head(r: HttpResponse, keys: seq<string>): string
    requires forall k | k in keys :: k in WireHeaders(r)
  {
    StatusLine(r.status) + "\r\n" + HeaderLines(keys, WireHeaders(r)) + "\r\n"
  }

  /** The bytes a response puts on the wire. */
  function ResponseBytes(r: HttpResponse, keys: seq<string>, suppressBody: bool): string
    requires r.Valid() && forall k | k in keys :: k in WireHeaders(r)
  {
    Head(r, keys) + if suppressBody then "" else r.BodyBytes()
  }

  function WriteResponseOf(c: Conn, r: HttpResponse, keys: seq<string>, suppressBody: bool): (d: Conn)
    requires c.Valid() && r.Valid() && forall k | k in keys :: k in WireHeaders(r)
    ensures d.Valid()
  {
    var queued := QueueWriteOf(c, Head(r, keys));
    if suppressBody then queued.(closing := true)
    else if r.body.Streaming? then queued.(stream := Some(r.body.stream), closing := true)
    else if r.body.bytes != "" then QueueWriteOf(queued, r.body.bytes).(closing := true)
    else queued.(closing := true)
  }

  const STATUS_LINES := {
    (Ok, "200", "OK"), (Created, "201", "Created"), (NoContent, "204", "No Content"),
    (PartialContent, "206", "Partial Content"), (BadRequest, "400", "Bad Request"), (NotFound, "404", "Not Found"),
    (MethodNotAllowed, "405", "Method Not Allowed"), (RangeNotSatisfiable, "416", "Range Not Satisfiable"),
    (InternalServerError, "500", "Internal Server Error")}

  lemma ThreeDigits(a: char, b: char, c: char)
    requires IsDigit(a) && IsDigit(b) && IsDigit(c) && a != '0'
    ensures ToText(100 * DigitValue(a) + 10 * DigitValue(b) + DigitValue(c)) == [a, b, c]
  {
    var n := 100 * DigitValue(a) + 10 * DigitValue(b) + DigitValue(c);
    assert n / 10 == 10 * DigitValue(a) + DigitValue(b) && n / 10 / 10 == DigitValue(a);
    assert ToText(n / 10 / 10) == [a];
  }

  /** The status lines as they go on the wire, code and reason phrase (section 6.1 of RFC 7231). */
  lemma StatusLineText(status: HttpStatus, code: string, reason: string)
    requires (status, code, reason) in STATUS_LINES
    ensures StatusLine(status) == "HTTP/1.1 " + code + " " + reason && Numeral(code, Code(status))
  {
    hide ToText, Value;
    assert |code| == 3 && AllDigits(code) && code[0] != '0';
    ThreeDigits(code[0], code[1], code[2]);
    assert code == [code[0], code[1], code[2]];
    assert Code(status) == 100 * DigitValue(code[0]) + 10 * DigitValue(code[1]) + DigitValue(code[2]);
    PrintedNumeral(Code(status));
  }

  /** The headers on the wire: those of the response, "Connection: close", and for a body in memory its
      length, whatever the response says. */
  lemma WireHeadersMeaning(r: HttpResponse, k: string)
    ensures k in WireHeaders(r) <==> k in r.headers || k == "Connection" || (r.body.Full? && k == "Content-Length")
    ensures WireHeaders(r)["Connection"] == "close"
    ensures r.body.Full? ==> Numeral(WireHeaders(r)["Content-Length"], |r.body.bytes|)
    ensures k in r.headers && k != "Connection" && !(r.body.Full? && k == "Content-Length") ==>
              WireHeaders(r)[k] == r.headers[k]
  {
    hide ToText, Numeral;
    if r.body.Full? {
      PrintedNumeral(|r.body.bytes|);
    }
  }

  /** The part of a response that is queued at once: the head, and a body in memory. */
  function QueuedPart(r: HttpResponse, keys: seq<string>, suppressBody: bool): string
    requires forall k | k in keys :: k in WireHeaders(r)
  {
    Head(r, keys) + if suppressBody || r.body.Streaming? then "" else r.body.bytes
  }

  /** What writing a response does to a connection in whatever state: its queued part goes behind what is
      queued, and a body that streams takes the place of a stream that is there. */
  lemma WriteResponseQueues(c: Conn, r: HttpResponse, keys: seq<string>, suppressBody: bool)
    requires c.Valid() && r.Valid() && forall k | k in keys :: k in WireHeaders(r)
    ensures var d := WriteResponseOf(c, r, keys, suppressBody);
            && d.Queued() == c.Queued() + QueuedPart(r, keys, suppressBody) && QueuedPart(r, keys, suppressBody) != ""
            && d.Unread() == (if r.body.Streaming? && !suppressBody then r.body.stream.Rest() else c.Unread())
            && (c.stream.None? && (suppressBody || r.body.Full?) ==> d.stream.None?)
            && d.closing && d.wire == c.wire && d.error == c.error && d.inbound == c.inbound
  {
    hide Buf.Appended, HeaderLines, StatusLine, WireHeaders, Stream.Rest;
    var head := Head(r, keys);
    AppendedReadable(c.outbound, head);
    var queued := QueueWriteOf(c, head);
    assert head + "" == head;
    if r.body.Full? && r.body.bytes != "" && !suppressBody {
      AppendedReadable(queued.outbound, r.body.bytes);
      assert c.Queued() + head + r.body.bytes == c.Queued() + (head + r.body.bytes);
    }
  }

  /** Whether a response written behind others is sent behind them. A body that streams drops what an
      earlier stream has not delivered, so only if there is none; otherwise the response overtakes what is
      unread, which shows unless the two texts commute. */
  lemma InOrder(c: Conn, r: HttpResponse, keys: seq<string>, suppressBody: bool)
    requires c.Valid() && r.Valid() && forall k | k in keys :: k in WireHeaders(r)
    ensures WriteResponseOf(c, r, keys, suppressBody).Pending() == c.Pending() + ResponseBytes(r, keys, suppressBody) <==>
            if r.body.Streaming? && !suppressBody then c.Unread() == ""
            else var added := QueuedPart(r, keys, suppressBody); c.Unread() + added == added + c.Unread()
  {
    WriteResponseQueues(c, r, keys, suppressBody);
    var d := WriteResponseOf(c, r, keys, suppressBody);
    ResponseParts(r, keys, suppressBody);
    hide WriteResponseOf, ResponseBytes, QueuedPart, Conn.Unread;
    Replaced(c.Queued(), c.Unread(), QueuedPart(r, keys, suppressBody), d.Unread());
    Overtaken(c.Queued(), c.Unread(), QueuedPart(r, keys, suppressBody));
  }

  lemma ResponseParts(r: HttpResponse, keys: seq<string>, suppressBody: bool)
    requires r.Valid() && forall k | k in keys :: k in WireHeaders(r)
    ensures ResponseBytes(r, keys, suppressBody) ==
            QueuedPart(r, keys, suppressBody) + if r.body.Streaming? && !suppressBody then r.body.stream.Rest() else ""
  {
    hide Head, Stream.Rest;
    assert forall s: string :: s + "" == s;
  }

  lemma Replaced(queued: string, unread: string, added: string, rest: string)
    ensures queued + added + rest == queued + unread + (added + rest) <==> unread == ""
  {
    if unread == "" {
      assert queued + added + rest == queued + (added + rest);
    }
  }

  lemma Overtaken(queued: string, unread: string, added: string)
    ensures queued + added + unread == queued + unread + (added + "") <==> unread + added == added + unread
  {
    assert queued + added + unread == queued + (added + unread) && queued + unread + added == queued + (unread + added);
    assert added + "" == added;
    if queued + (added + unread) == queued + (unread + added) {
      assert added + unread == (queued + (added + unread))[|queued|..];
    }
  }

  /** On a connection with nothing queued, the response's bytes become exactly what is pending. */
  lemma WriteResponsePending(c: Conn, r: HttpResponse, keys: seq<string>, suppressBody: bool)
    requires c.Valid() && r.Valid() && forall k | k in keys :: k in WireHeaders(r)
    requires !c.HasPendingWrites()
    ensures var d := WriteResponseOf(c, r, keys, suppressBody);
            && d.Pending() == ResponseBytes(r, keys, suppressBody)
            && d.closing && d.wire == c.wire && d.error == c.error && d.inbound == c.inbound
            && d.HasPendingWrites()
  {
    WriteResponseQueues(c, r, keys, suppressBody);
    hide WriteResponseOf;
    assert "" + QueuedPart(r, keys, suppressBody) == QueuedPart(r, keys, suppressBody);
    hide Head;
  }

  method BuildHead(r: HttpResponse, keys: seq<string>) returns (head: string)
    requires forall k | k in keys :: k in WireHeaders(r)
    ensures head == Head(r, keys)
  {
    var headers := r.headers;
    if r.body.Full? {
      headers := headers["Content-Length" := ToText(|r.body.bytes|)];
    }
    headers := headers["Connection" := "close"];
    assert headers == WireHeaders(r);

    hide WireHeaders, StatusLine, HeaderLines;
    var start := StatusLine(r.status) + "\r\n";
    var lines := "";
    assert keys[0..] == keys && lines + HeaderLines(keys, headers) == HeaderLines(keys, headers);
    for i := 0 to |keys|
      invariant HeaderLines(keys, headers) == lines + HeaderLines(keys[i..], headers)
    {
      HeaderLinesStep(lines, keys[i..], headers);
      assert keys[i..][1..] == keys[i + 1..];
      lines := lines + (keys[i] + ": " + headers[keys[i]] + "\r\n");
    }
    assert HeaderLines(keys[|keys|..], headers) == "" by { NoHeaderLines(headers); }
    assert lines + "" == lines;
    head := start + lines + "\r\n";
  }

  lemma HeaderLinesStep(front: string, keys: seq<string>, m: map<string, string>)
    requires keys != [] && forall k | k in keys :: k in m
    ensures front + HeaderLines(keys, m) ==
            front + (keys[0] + ": " + m[keys[0]] + "\r\n") + HeaderLines(keys[1..], m)
  {
  }

  lemma NoHeaderLines(m: map<string, string>)
    ensures HeaderLines([], m) == ""
  {
  }

  method WriteHttpResponse(
    connection: TcpConnection, r: HttpResponse, body: FileRangeResponseBody?, keys: seq<string>, suppressBody: bool)
    requires connection.Valid() && r.Valid() && Enumerates(keys, WireHeaders(r))
    requires r.body.Streaming? ==> body != null && body.View() == r.body.stream && |body.file| <= U64_MAX
    modifies connection, connection.outbound
    ensures connection.Valid()
    ensures connection.View() == WriteResponseOf(old(connection.View()), r, keys, suppressBody)
  {
    hide Head, QueueWriteOf, Enumerates;
    assert forall k | k in keys :: k in WireHeaders(r) by { EnumeratedKeys(keys, WireHeaders(r)); }
    var head := BuildHead(r, keys);
    connection.QueueWrite(head);
    if suppressBody {
      connection.CloseAfterFlush();
      return;
    }
    if r.body.Streaming? {
      connection.SetStreamingBody(body);
    } else if r.body.bytes != "" {
      connection.QueueWrite(r.body.bytes);
    }
    connection.CloseAfterFlush();
  }

  lemma EnumeratedKeys(keys: seq<string>, m: map<string, string>)
    requires Enumerates(keys, m)
    ensures forall k | k in keys :: k in m
  {
  }
}
