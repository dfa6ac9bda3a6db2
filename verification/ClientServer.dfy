/** The sync client against the server: its two request heads are well-formed requests, and what it
    reads back is what the route answered. */
module ClientServer {
  import opened Common
  import opened Decimal
  import opened HttpText
  import opened HttpParser
  import opened RequestRoundTrip
  import opened HttpResponse
  import HttpClient
  import opened Router
  import opened EventLoop
  import opened WholeServer
  import opened ResponseRoundTrip

  // ---------------------------------------------------------------------------------------------
  // The request heads
  // ---------------------------------------------------------------------------------------------

  /** The head `get` prints for a request target. */
  function GetHead(target: string, host: string): string
  {
    "GET " + target + " HTTP/1.1\r\n" +
    ("Host: " + host + "\r\n") +
    ("Accept: " + "application/json" + "\r\n") +
    ("Connection: " + "close" + "\r\n") +
    "\r\n"
  }

  /** The head `postFile` prints for a file of `size` bytes. */
  function PostHead(target: string, host: string, relativePath: string, size: nat): string
  {
    "POST " + target + " HTTP/1.1\r\n" +
    ("Host: " + host + "\r\n") +
    ("X-Relative-Path: " + relativePath + "\r\n") +
    ("Content-Type: " + "application/octet-stream" + "\r\n") +
    ("Content-Length: " + ToText(size) + "\r\n") +
    ("Connection: " + "close" + "\r\n") +
    "\r\n"
  }

  function GetRequest(rawPath: string, path: string, query: string, host: string): WireRequest
  {
    WireRequest("GET", rawPath, path, query, "HTTP/1.1",
                [("Host", host), ("Accept", "application/json"), ("Connection", "close")], "")
  }

  function PostRequest(rawPath: string, path: string, query: string, host: string, relativePath: string, body: string): WireRequest
  {
    WireRequest("POST", rawPath, path, query, "HTTP/1.1",
                [("Host", host), ("X-Relative-Path", relativePath), ("Content-Type", "application/octet-stream"),
                 ("Content-Length", ToText(|body|)), ("Connection", "close")], body)
  }

  lemma PrintHeadersCons(h: (string, string), rest: seq<(string, string)>)
    ensures PrintHeaders([h] + rest) == HeaderLineOf(h) + "\r\n" + PrintHeaders(rest)
  {
    assert ([h] + rest)[1..] == rest;
  }

  lemma HeaderMapCons(h: (string, string), rest: seq<(string, string)>, m: map<string, string>)
    ensures HeaderMap([h] + rest, m) == HeaderMap(rest, m[ToLower(h.0) := h.1])
    ensures HeaderSize([h] + rest) == |HeaderLineOf(h)| + 2 + HeaderSize(rest)
  {
    assert ([h] + rest)[1..] == rest;
  }

  /** A request target a caller may pass: an escaped path, an optional query, no blanks, no CR. */
  predicate GoodTarget(rawPath: string, path: string, query: string)
  {
    && rawPath != "" && rawPath[0] == '/' && NoSpace(rawPath) && NoSpace(query)
    && (forall i | 0 <= i < |rawPath| :: rawPath[i] != '?' && rawPath[i] != '\r')
    && (forall i | 0 <= i < |query| :: query[i] != '\r')
    && PercentDecode(rawPath) == Some(path)
  }

  /** The request fits the server's default limits, its line strictly. */
  predicate Fits(w: WireRequest)
  {
    |RequestLineOf(w)| < 8_192 && HeaderSize(w.headers) <= 16_384 && |w.body| <= 10_485_760
  }

  lemma TargetLineOk(w: WireRequest)
    requires GoodTarget(w.rawPath, w.path, w.query) && w.version == "HTTP/1.1" && (w.verb == "GET" || w.verb == "POST")
    ensures WellFormedLine(w)
  {
    hide PercentDecode, FindCrlf;
    assert w.version[..5] == "HTTP/" && VersionWellFormed(w.version);
    var line := RequestLineOf(w);
    var target := TargetOf(w);
    assert forall i | 0 <= i < |target| :: target[i] != '\r';
    assert forall i | 0 <= i < |line| :: line[i] != '\r';
    assert forall i :: !CrlfAt(line, i);
  }

  lemma FixedHeaders()
    ensures WellFormedHeader(("Accept", "application/json"))
    ensures WellFormedHeader(("Connection", "close"))
  {
    assert Tidy("Accept") && Tidy("application/json") && NoColon("Accept");
    assert Tidy("Connection") && Tidy("close") && NoColon("Connection");
    hide Tidy, WellFormedHeader;
    TidyHeader(("Accept", "application/json"));
    TidyHeader(("Connection", "close"));
  }

  lemma FixedType()
    ensures WellFormedHeader(("Content-Type", "application/octet-stream"))
  {
    assert Tidy("Content-Type") && Tidy("application/octet-stream") && NoColon("Content-Type");
    hide Tidy, WellFormedHeader;
    TidyHeader(("Content-Type", "application/octet-stream"));
  }

  lemma HostHeader(host: string)
    requires Tidy(host)
    ensures WellFormedHeader(("Host", host))
  {
    assert Tidy("Host") && NoColon("Host");
    hide Tidy, WellFormedHeader;
    TidyHeader(("Host", host));
  }

  lemma PathHeader(relativePath: string)
    requires Tidy(relativePath)
    ensures WellFormedHeader(("X-Relative-Path", relativePath))
  {
    assert Tidy("X-Relative-Path") && NoColon("X-Relative-Path");
    hide Tidy, WellFormedHeader;
    TidyHeader(("X-Relative-Path", relativePath));
  }

  lemma LengthHeaderOk(n: nat)
    ensures WellFormedHeader(("Content-Length", ToText(n)))
  {
    hide ToText;
    var d := ToText(n);
    assert forall i | 0 <= i < |d| :: IsDigit(d[i]);
    assert Tidy(d) && Tidy("Content-Length") && NoColon("Content-Length");
    hide Tidy, WellFormedHeader;
    TidyHeader(("Content-Length", d));
  }

  /** The head `get` prints is a well-formed request the server understands. */
  lemma GetIsWellFormed(rawPath: string, path: string, query: string, host: string)
    requires GoodTarget(rawPath, path, query) && Tidy(host) && Fits(GetRequest(rawPath, path, query, host))
    ensures var w := GetRequest(rawPath, path, query, host);
            && GetHead(TargetOf(w), host) == Print(w)
            && AllBelowLimits(DEFAULT_LIMITS, [w])
  {
    hide WellFormedHeader, WellFormedLine, GoodTarget, ToLower, TargetOf, Tidy;
    var w := GetRequest(rawPath, path, query, host);
    TargetLineOk(w);
    HostHeader(host);
    FixedHeaders();
    var none: seq<(string, string)> := [];
    var h1, h2, h3 := ("Host", host), ("Accept", "application/json"), ("Connection", "close");
    assert w.headers == [h1] + ([h2] + ([h3] + none));
    PrintHeadersCons(h3, none);
    PrintHeadersCons(h2, [h3] + none);
    PrintHeadersCons(h1, [h2] + ([h3] + none));
    var m: map<string, string> := map[];
    HeaderMapCons(h1, [h2] + ([h3] + none), m);
    HeaderMapCons(h2, [h3] + none, m[ToLower(h1.0) := h1.1]);
    HeaderMapCons(h3, none, m[ToLower(h1.0) := h1.1][ToLower(h2.0) := h2.1]);
    GetPrinted(w, h1, h2, h3);
  }

  lemma GetPrinted(w: WireRequest, h1: (string, string), h2: (string, string), h3: (string, string))
    requires w.verb == "GET" && w.version == "HTTP/1.1" && w.body == ""
    requires h1.0 == "Host" && h2 == ("Accept", "application/json") && h3 == ("Connection", "close")
    requires PrintHeaders(w.headers) ==
             HeaderLineOf(h1) + "\r\n" + (HeaderLineOf(h2) + "\r\n" + (HeaderLineOf(h3) + "\r\n" + ""))
    ensures GetHead(TargetOf(w), h1.1) == Print(w)
  {
    hide TargetOf, PrintHeaders;
  }

  /** The head `postFile` prints, followed by the file, is a well-formed request with the file as body,
      whatever the file holds. */
  lemma PostIsWellFormed(rawPath: string, path: string, query: string, host: string, relativePath: string, body: string)
    requires GoodTarget(rawPath, path, query) && Tidy(host) && Tidy(relativePath)
    requires Fits(PostRequest(rawPath, path, query, host, relativePath, body))
    ensures var w := PostRequest(rawPath, path, query, host, relativePath, body);
            && PostHead(TargetOf(w), host, relativePath, |body|) + body == Print(w)
            && AllBelowLimits(DEFAULT_LIMITS, [w])
  {
    hide WellFormedHeader, WellFormedLine, GoodTarget, ToLower, TargetOf, Tidy, ToText, HeaderMap, HeaderSize;
    var w := PostRequest(rawPath, path, query, host, relativePath, body);
    TargetLineOk(w);
    HostHeader(host);
    PathHeader(relativePath);
    FixedHeaders();
    FixedType();
    LengthHeaderOk(|body|);
    PostHeaders(w.headers, |body|);
    PostPrinted(w);
  }

  /** The headers of `postFile` announce the body length and nothing that contradicts it. */
  lemma PostHeaders(headers: seq<(string, string)>, n: nat)
    requires |headers| == 5 && headers[0].0 == "Host" && headers[1].0 == "X-Relative-Path" && headers[2].0 == "Content-Type"
    requires headers[3] == ("Content-Length", ToText(n)) && headers[4].0 == "Connection"
    requires n <= DEFAULT_LIMITS.maxBodySize
    ensures BodyLength(DEFAULT_LIMITS, HeaderMap(headers, map[])) == Some(n)
  {
    hide ToLower, ToText, HeaderSize, HeaderLineOf;
    var none: seq<(string, string)> := [];
    var h0, h1, h2, h3, h4 := headers[0], headers[1], headers[2], headers[3], headers[4];
    assert headers == [h0] + ([h1] + ([h2] + ([h3] + ([h4] + none))));
    var m: map<string, string> := map[];
    HeaderMapCons(h0, [h1] + ([h2] + ([h3] + ([h4] + none))), m);
    var m1 := m[ToLower(h0.0) := h0.1];
    HeaderMapCons(h1, [h2] + ([h3] + ([h4] + none)), m1);
    var m2 := m1[ToLower(h1.0) := h1.1];
    HeaderMapCons(h2, [h3] + ([h4] + none), m2);
    var m3 := m2[ToLower(h2.0) := h2.1];
    HeaderMapCons(h3, [h4] + none, m3);
    var m4 := m3[ToLower(h3.0) := h3.1];
    HeaderMapCons(h4, none, m4);
    LowerOfLengthName();
    ParseToText(n);
    assert |"transfer-encoding"| == 17 && |LENGTH_NAME| == 14;
  }

  lemma PostPrinted(w: WireRequest)
    requires w.verb == "POST" && w.version == "HTTP/1.1" && |w.headers| == 5
    requires w.headers[0].0 == "Host" && w.headers[1].0 == "X-Relative-Path"
    requires w.headers[2] == ("Content-Type", "application/octet-stream")
    requires w.headers[3] == ("Content-Length", ToText(|w.body|)) && w.headers[4] == ("Connection", "close")
    ensures PostHead(TargetOf(w), w.headers[0].1, w.headers[1].1, |w.body|) + w.body == Print(w)
  {
    hide TargetOf, PrintHeaders, ToText;
    var none: seq<(string, string)> := [];
    var h0, h1, h2, h3, h4 := w.headers[0], w.headers[1], w.headers[2], w.headers[3], w.headers[4];
    assert w.headers == [h0] + ([h1] + ([h2] + ([h3] + ([h4] + none))));
    PrintHeadersCons(h4, none);
    PrintHeadersCons(h3, [h4] + none);
    PrintHeadersCons(h2, [h3] + ([h4] + none));
    PrintHeadersCons(h1, [h2] + ([h3] + ([h4] + none)));
    PrintHeadersCons(h0, [h1] + ([h2] + ([h3] + ([h4] + none))));
    NoHeaders();
    var start := "POST " + TargetOf(w) + " HTTP/1.1\r\n";
    PostLines(h0.1, h1.1, ToText(|w.body|));
    hide HeaderLineOf;
    FiveLines(start, HeaderLineOf(h0) + "\r\n", HeaderLineOf(h1) + "\r\n", HeaderLineOf(h2) + "\r\n",
              HeaderLineOf(h3) + "\r\n", HeaderLineOf(h4) + "\r\n", w.body);
    PostStart(w);
  }

  lemma PostStart(w: WireRequest)
    requires w.verb == "POST" && w.version == "HTTP/1.1"
    ensures RequestLineOf(w) + "\r\n" == "POST " + TargetOf(w) + " HTTP/1.1\r\n"
  {
    hide TargetOf;
  }

  lemma PostLines(host: string, relativePath: string, length: string)
    ensures HeaderLineOf(("Host", host)) + "\r\n" == "Host: " + host + "\r\n"
    ensures HeaderLineOf(("X-Relative-Path", relativePath)) + "\r\n" == "X-Relative-Path: " + relativePath + "\r\n"
    ensures HeaderLineOf(("Content-Type", "application/octet-stream")) + "\r\n" ==
            "Content-Type: " + "application/octet-stream" + "\r\n"
    ensures HeaderLineOf(("Content-Length", length)) + "\r\n" == "Content-Length: " + length + "\r\n"
    ensures HeaderLineOf(("Connection", "close")) + "\r\n" == "Connection: " + "close" + "\r\n"
  {
    assert "Host" + ": " == "Host: ";
    assert "X-Relative-Path" + ": " == "X-Relative-Path: ";
    assert "Content-Type" + ": " == "Content-Type: ";
    assert "Content-Length" + ": " == "Content-Length: ";
    assert "Connection" + ": " == "Connection: ";
  }

  lemma FiveLines(start: string, a: string, b: string, c: string, d: string, e: string, body: string)
    ensures start + a + b + c + d + e + "\r\n" + body == start + (a + (b + (c + (d + (e + "")))) + "\r\n" + body)
  {
    assert a + b + c + d + e == a + (b + (c + (d + (e + ""))));
  }

  lemma NoHeaders()
    ensures PrintHeaders([]) == ""
  {
  }

  // ---------------------------------------------------------------------------------------------
  // There and back
  // ---------------------------------------------------------------------------------------------

  /** Client to server and back: on any run of the server, a client that sent the bytes of `w`, with
      nothing behind them that completes another request, and read until the server closed the drained
      connection has, however its own `recv` cuts the bytes, the status and the body of the route's answer. */
  lemma ClientServerRoundTrip(
    env: Env, listeners: set<int>, steps: seq<Step>, i: nat, w: WireRequest, extra: string,
    events: seq<HttpClient.Received>)
    requires ServedOne(env, listeners, steps, i, w, extra) && w.verb != "HEAD"
    requires HttpClient.BytesOf(events) == ClosedBy(env, listeners, steps)[i].link.conn.wire
    requires Readable(Dispatch(env.routes, RequestRoundTrip.Received(w), env.errorText))
    ensures var r := Dispatch(env.routes, RequestRoundTrip.Received(w), env.errorText);
            HttpClient.ReadHead("", events) == HttpClient.ClientResponse(true, Code(r.status), r.BodyBytes(), "")
  {
    hide ClosedBy, LegalRun, Head, Dispatch, Readable, HttpClient.ReadHead, AllBelowLimits, Print;
    var r := Dispatch(env.routes, RequestRoundTrip.Received(w), env.errorText);
    var keys := env.order(WireHeaders(r));
    WholeServerSafety(env, listeners, steps, i, w, extra);
    EnumeratedKeys(keys, WireHeaders(r));
    ClientReadsResponse(r, keys, events);
  }
}
