/** The sync client: reading a response incrementally, and the request heads it prints. */
module HttpClient {
  import opened Common
  import opened Decimal
  import opened HttpText

  /** The kernel's answers to successive `recv` calls; after the last one the peer has closed. */
  datatype Received = Data(bytes: string) | Interrupted | RecvError

  datatype ClientResponse = ClientResponse(connected: bool, statusCode: int, body: string, error: string)

  // ---------------------------------------------------------------------------------------------
  // Text scanning
  // ---------------------------------------------------------------------------------------------

  predicate BlankAt(s: string, i: int)
  {
    0 <= i && i + 3 < |s| && s[i] == '\r' && s[i + 1] == '\n' && s[i + 2] == '\r' && s[i + 3] == '\n'
  }

  function FindBlankFrom(s: string, from: nat): (r: Option<nat>)
    requires from <= |s|
    ensures r.Some? ==> from <= r.value && BlankAt(s, r.value) && forall i | from <= i < r.value :: !BlankAt(s, i)
    ensures r.None? ==> forall i | from <= i :: !BlankAt(s, i)
    decreases |s| - from
  {
    if from == |s| then None
    else if BlankAt(s, from) then Some(from)
    else FindBlankFrom(s, from + 1)
  }

  /** `raw.find("\r\n\r\n")`. */
  function FindBlank(s: string): (r: Option<nat>)
    ensures r.Some? ==> BlankAt(s, r.value) && forall i | 0 <= i < r.value :: !BlankAt(s, i)
    ensures r.None? ==> forall i | 0 <= i :: !BlankAt(s, i)
  {
    FindBlankFrom(s, 0)
  }

  predicate IsSpace(c: char) { c in " \t\n\r\U{00000B}\U{00000C}" }

  function SkipSpace(s: string): string
  {
    if s != "" && IsSpace(s[0]) then SkipSpace(s[1..]) else s
  }

  function SkipWord(s: string): string
  {
    if s != "" && !IsSpace(s[0]) then SkipWord(s[1..]) else s
  }

  function DigitsOf(s: string): (d: string)
    ensures AllDigits(d)
  {
    if s != "" && IsDigit(s[0]) then [s[0]] + DigitsOf(s[1..]) else ""
  }

  function Clamp(v: int, most: nat): int
  {
    if v > most then most else if v + most + 1 < 0 then -1 - most as int else v
  }

  /** The number at the front of `s` after blanks and a sign, saturated to a signed type; 0 if none. */
  function LeadingNumber(s: string, most: nat): int
  {
    SignedAt(SkipSpace(s), most)
  }

  function SignedAt(t: string, most: nat): int
  {
    if t != "" && t[0] == '-' then Clamp(-(Value(DigitsOf(t[1..])) as int), most)
    else if t != "" && t[0] == '+' then Clamp(Value(DigitsOf(t[1..])), most)
    else Clamp(Value(DigitsOf(t)), most)
  }

  /** `statusStream >> httpVersion >> statusCode`. */
  function StatusOf(line: string): int
  {
    LeadingNumber(SkipWord(SkipSpace(line)), 0x7FFF_FFFF)
  }

  /** `getline`: the text before the first LF and the rest, if there is a LF. */
  function LineEnd(s: string): Option<nat>
  {
    FindChar(s, '\n', 0)
  }

  const LENGTH_PREFIX := "content-length:"

  /** What one header line makes of the announced length. */
  function LengthOn(line: string, length: int): int
  {
    var text := if line != "" && line[|line| - 1] == '\r' then line[..|line| - 1] else line;
    if |text| >= |LENGTH_PREFIX| && ToLower(text[..|LENGTH_PREFIX|]) == LENGTH_PREFIX
    then LeadingNumber(text[|LENGTH_PREFIX|..], I64_MAX)
    else length
  }

  /** The announced length after the header lines of `block`; -1 if none announces one. */
  function LengthIn(block: string, length: int): int
    decreases |block|
  {
    var end := LineEnd(block);
    if block == "" then length
    else if end.None? then LengthOn(block, length)
    else LengthIn(block[end.value + 1..], LengthOn(block[..end.value], length))
  }

  // ---------------------------------------------------------------------------------------------
  // readResponse
  // ---------------------------------------------------------------------------------------------

  function Failed(error: string): ClientResponse { ClientResponse(false, 0, "", error) }

  /** Reading on until the blank line is there. */
  function ReadHead(raw: string, events: seq<Received>): ClientResponse
    decreases |events|, 1
  {
    if events == [] then Failed("connection closed before headers completed")
    else
      match events[0]
      case Interrupted => ReadHead(raw, events[1..])
      case RecvError => Failed("recv() failed while reading headers")
      case Data(bytes) =>
        if FindBlank(raw + bytes).None? then ReadHead(raw + bytes, events[1..])
        else ReadBody(raw + bytes, events[1..])
  }

  /** From the blank line on. */
  function ReadBody(raw: string, events: seq<Received>): ClientResponse
    requires FindBlank(raw).Some?
  {
    var end := FindBlank(raw).value;
    var head, body := raw[..end], raw[end + 4..];
    var first := LineEnd(head);
    var statusLine := if first.None? then head else head[..first.value];
    var headers := if first.None? then "" else head[first.value + 1..];
    var length := LengthIn(headers, -1);
    if length < 0 then ReadToClose(StatusOf(statusLine), body, events)
    else ReadLength(StatusOf(statusLine), body, length, events)
  }

  function ReadToClose(status: int, body: string, events: seq<Received>): ClientResponse
    decreases |events|
  {
    if events == [] then ClientResponse(true, status, body, "")
    else
      match events[0]
      case Interrupted => ReadToClose(status, body, events[1..])
      case RecvError => ClientResponse(true, status, body, "")
      case Data(bytes) => ReadToClose(status, body + bytes, events[1..])
  }

  function ReadLength(status: int, body: string, length: nat, events: seq<Received>): ClientResponse
    decreases |events|
  {
    if |body| >= length || events == [] then ClientResponse(true, status, body, "")
    else
      match events[0]
      case Interrupted => ReadLength(status, body, length, events[1..])
      case RecvError => ClientResponse(false, status, "", "recv() failed while reading body")
      case Data(bytes) => ReadLength(status, body + bytes, length, events[1..])
  }

  method ReadResponse(events: seq<Received>) returns (r: ClientResponse)
    ensures r == ReadHead("", events)
  {
    var raw := "";
    var at := 0;
    var headerEnd: Option<nat> := None;
    assert events[0..] == events;
    while headerEnd.None?
      invariant 0 <= at <= |events|
      invariant headerEnd == None || headerEnd == FindBlank(raw)
      invariant headerEnd.None? ==> ReadHead("", events) == ReadHead(raw, events[at..])
      invariant headerEnd.Some? ==> ReadHead("", events) == ReadBody(raw, events[at..])
      decreases |events| - at, headerEnd.None?
    {
      if at == |events| { return Failed("connection closed before headers completed"); }
      var e := events[at];
      assert events[at..][1..] == events[at + 1..];
      at := at + 1;
      if e.Interrupted? { continue; }
      if e.RecvError? { return Failed("recv() failed while reading headers"); }
      raw := raw + e.bytes;
      headerEnd := FindBlank(raw);
    }
    var head, bodySoFar := raw[..headerEnd.value], raw[headerEnd.value + 4..];
    var first := LineEnd(head);
    var statusLine := if first.None? then head else head[..first.value];
    var statusCode := StatusOf(statusLine);
    var contentLength := ScanHeaders(if first.None? then "" else head[first.value + 1..]);
    r := DrainBody(statusCode, bodySoFar, contentLength, events[at..]);
  }

  method ScanHeaders(headers: string) returns (contentLength: int)
    ensures contentLength == LengthIn(headers, -1)
  {
    contentLength := -1;
    var rest := headers;
    while rest != ""
      invariant LengthIn(headers, -1) == LengthIn(rest, contentLength)
      decreases |rest|
    {
      var end := LineEnd(rest);
      contentLength := LengthOn(if end.None? then rest else rest[..end.value], contentLength);
      rest := if end.None? then "" else rest[end.value + 1..];
    }
  }

  method DrainBody(statusCode: int, start: string, contentLength: int, events: seq<Received>) returns (r: ClientResponse)
    ensures r == if contentLength < 0 then ReadToClose(statusCode, start, events)
                 else ReadLength(statusCode, start, contentLength, events)
  {
    var body := start;
    var at := 0;
    assert events[0..] == events;
    if contentLength < 0 {
      while at < |events|
        invariant 0 <= at <= |events|
        invariant ReadToClose(statusCode, start, events) == ReadToClose(statusCode, body, events[at..])
      {
        var e := events[at];
        assert events[at..][1..] == events[at + 1..];
        at := at + 1;
        if e.Interrupted? { continue; }
        if e.RecvError? { break; }
        body := body + e.bytes;
      }
    } else {
      while |body| < contentLength
        invariant 0 <= at <= |events|
        invariant ReadLength(statusCode, start, contentLength, events) == ReadLength(statusCode, body, contentLength, events[at..])
        decreases |events| - at
      {
        if at == |events| { break; }
        var e := events[at];
        assert events[at..][1..] == events[at + 1..];
        at := at + 1;
        if e.Interrupted? { continue; }
        if e.RecvError? { return ClientResponse(false, statusCode, "", "recv() failed while reading body"); }
        body := body + e.bytes;
      }
    }
    return ClientResponse(true, statusCode, body, "");
  }

  /** The bytes `recv` delivers before it reports an error, if it does. */
  function BytesOf(events: seq<Received>): string
  {
    if events == [] then ""
    else
      match events[0]
      case Data(bytes) => bytes + BytesOf(events[1..])
      case Interrupted => BytesOf(events[1..])
      case RecvError => ""
  }

  /** Some `recv` reports an error. */
  predicate Breaks(events: seq<Received>)
  {
    exists i :: 0 <= i < |events| && events[i].RecvError?
  }

  // ---------------------------------------------------------------------------------------------
  // Sending
  // ---------------------------------------------------------------------------------------------

  /** The kernel's answers to successive `send` calls: bytes taken (of those offered), EINTR, an error. */
  datatype SendResult = Took(count: nat) | SendInterrupted | SendError

  /** How many bytes the kernel is ready to take, in all, before it reports an error or takes none. */
  function Taken(results: seq<SendResult>): nat
  {
    if results == [] then 0
    else
      match results[0]
      case Took(count) => if count == 0 then 0 else count + Taken(results[1..])
      case SendInterrupted => Taken(results[1..])
      case SendError => 0
  }

  /** `sendAll`: whatever the kernel takes at a time, the socket has got the data in order, as far as the
      kernel was ready to take them, and success means all of them. */
  method SendAll(data: string, results: seq<SendResult>) returns (ok: bool, wire: string)
    ensures wire == data[..Min(|data|, Taken(results))]
    ensures ok <==> Taken(results) >= |data|
  {
    wire := "";
    var at := 0;
    assert results[0..] == results;
    while |wire| < |data|
      invariant at <= |results| && |wire| <= |data| && wire == data[..|wire|]
      invariant Min(|data|, Taken(results)) == Min(|data|, |wire| + Taken(results[at..]))
      decreases |results| - at
    {
      if at == |results| { return false, wire; }
      var r := results[at];
      assert results[at..][1..] == results[at + 1..];
      at := at + 1;
      if r.SendInterrupted? { continue; }
      if r.SendError? || r.count == 0 { return false, wire; }
      var n := Min(r.count, |data| - |wire|);
      wire := wire + data[|wire|..|wire| + n];
    }
    ok := true;
  }
}
