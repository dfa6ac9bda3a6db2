/** Printing requests back to back and parsing them returns the same requests: percent-encoding,
    the two line grammars, the header section, bodies that may themselves hold CR LF, pipelining,
    and, through fragmentation independence, any cutting of the byte stream. */
module RequestRoundTrip {
  import opened Common
  import opened HttpText
  import opened HttpParser
  import opened Fragmentation

  // ---------------------------------------------------------------------------------------------
  // Percent-encoding (RFC 3986, section 2.1)
  // ---------------------------------------------------------------------------------------------

  /** The unreserved characters of RFC 3986, section 2.3, and the path separator. */
  predicate Kept(c: char)
  {
    'a' <= c <= 'z' || 'A' <= c <= 'Z' || '0' <= c <= '9' || c in "-._~/"
  }

  function HexChar(v: nat): (c: char)
    requires v < 16
    ensures IsHexDigit(c) && HexValue(c) == v
  {
    if v < 10 then (('0' as int) + v) as char else (('A' as int) + v - 10) as char
  }

  function EncodeByte(c: char): (e: string)
    requires c as int < 256
  {
    if Kept(c) then [c] else ['%', HexChar(c as int / 16), HexChar(c as int % 16)]
  }

  function PercentEncode(s: string): string
    requires IsBytes(s)
  {
    if s == "" then "" else EncodeByte(s[0]) + PercentEncode(s[1..])
  }

  /** Percent-decoding undoes percent-encoding of any bytes. */
  lemma {:induction false} DecodeEncode(s: string)
    requires IsBytes(s)
    ensures PercentDecode(PercentEncode(s)) == Some(s)
  {
    if s != "" {
      DecodeEncode(s[1..]);
      var front, rest := EncodeByte(s[0]), PercentEncode(s[1..]);
      assert (front + rest)[|front|..] == rest;
      assert s == [s[0]] + s[1..];
    }
  }

  /** Nothing that the request line treats specially survives encoding. */
  lemma {:induction false} EncodedIsPlain(s: string)
    requires IsBytes(s)
    ensures forall i | 0 <= i < |PercentEncode(s)| :: Kept(PercentEncode(s)[i]) || PercentEncode(s)[i] == '%'
    ensures s != "" && s[0] == '/' ==> PercentEncode(s) != "" && PercentEncode(s)[0] == '/'
  {
    if s != "" {
      EncodedIsPlain(s[1..]);
    }
  }

  // ---------------------------------------------------------------------------------------------
  // Requests on the wire
  // ---------------------------------------------------------------------------------------------

  /** A request as a client writes it. `rawPath` is the escaped form of `path`. */
  datatype WireRequest = WireRequest(
    verb: string, rawPath: string, path: string, query: string, version: string,
    headers: seq<(string, string)>, body: string)

  function TargetOf(w: WireRequest): string
  {
    w.rawPath + (if w.query == "" then "" else "?" + w.query)
  }

  function RequestLineOf(w: WireRequest): string
  {
    w.verb + " " + TargetOf(w) + " " + w.version
  }

  function HeaderLineOf(h: (string, string)): string
  {
    h.0 + ": " + h.1
  }

  function PrintHeaders(headers: seq<(string, string)>): string
  {
    if headers == [] then "" else HeaderLineOf(headers[0]) + "\r\n" + PrintHeaders(headers[1..])
  }

  function Print(w: WireRequest): string
  {
    RequestLineOf(w) + "\r\n" + (PrintHeaders(w.headers) + "\r\n" + w.body)
  }

  function PrintAll(ws: seq<WireRequest>): string
  {
    if ws == [] then "" else Print(ws[0]) + PrintAll(ws[1..])
  }

  /** Later headers of the same name, case ignored, replace earlier ones. */
  function HeaderMap(headers: seq<(string, string)>, m: map<string, string>): map<string, string>
  {
    if headers == [] then m else HeaderMap(headers[1..], m[ToLower(headers[0].0) := headers[0].1])
  }

  function HeaderSize(headers: seq<(string, string)>): nat
  {
    if headers == [] then 0 else |HeaderLineOf(headers[0])| + 2 + HeaderSize(headers[1..])
  }

  /** The request the server should see. */
  function Received(w: WireRequest): HttpRequest
  {
    HttpRequest(w.verb, w.path, w.query, w.version, HeaderMap(w.headers, map[]), w.body)
  }

  function ReceivedAll(ws: seq<WireRequest>): seq<HttpRequest>
  {
    if ws == [] then [] else [Received(ws[0])] + ReceivedAll(ws[1..])
  }

  predicate NoSpace(s: string)
  {
    forall i | 0 <= i < |s| :: s[i] != ' '
  }

  predicate WellFormedLine(w: WireRequest)
  {
    && w.verb != "" && NoSpace(w.verb)
    && w.rawPath != "" && w.rawPath[0] == '/' && NoSpace(w.rawPath)
    && (forall i | 0 <= i < |w.rawPath| :: w.rawPath[i] != '?')
    && PercentDecode(w.rawPath) == Some(w.path)
    && NoSpace(w.query)
    && VersionWellFormed(w.version)
    && FindCrlf(RequestLineOf(w)).None?
  }

  predicate WellFormedHeader(h: (string, string))
  {
    && h.0 != "" && TrimOws(h.0) == h.0 && TrimOws(h.1) == h.1
    && (forall i | 0 <= i < |h.0| :: h.0[i] != ':')
    && FindCrlf(HeaderLineOf(h)).None?
  }

  /** A well-formed request within the limits, whose headers announce its body. */
  predicate WellFormed(limits: Limits, w: WireRequest)
  {
    && WellFormedLine(w)
    && |RequestLineOf(w)| <= limits.maxRequestLineLength
    && (forall i | 0 <= i < |w.headers| :: WellFormedHeader(w.headers[i]))
    && HeaderSize(w.headers) <= limits.maxHeaderBytes
    && |w.headers| <= limits.maxHeaderCount
    && BodyLength(limits, HeaderMap(w.headers, map[])) == Some(|w.body|)
  }

  // ---------------------------------------------------------------------------------------------
  // One request
  // ---------------------------------------------------------------------------------------------

  lemma FindCharAt(s: string, c: char, from: nat, k: nat)
    requires from <= k < |s| && s[k] == c && forall i | from <= i < k :: s[i] != c
    ensures FindChar(s, c, from) == Some(k)
  {
  }

  lemma ThreeParts(a: string, b: string, c: string)
    requires NoSpace(a) && NoSpace(b) && NoSpace(c)
    ensures var line := a + " " + b + " " + c;
            var first, second := |a|, |a| + 1 + |b|;
            && FindChar(line, ' ', 0) == Some(first)
            && FindChar(line, ' ', first + 1) == Some(second)
            && FindChar(line, ' ', second + 1).None?
            && line[..first] == a && line[first + 1..second] == b && line[second + 1..] == c
  {
    hide FindChar;
    var line := a + " " + b + " " + c;
    var first, second := |a|, |a| + 1 + |b|;
    FindCharAt(line, ' ', 0, first);
    assert forall i | first + 1 <= i < second :: line[i] == b[i - (first + 1)];
    FindCharAt(line, ' ', first + 1, second);
    assert forall i | second + 1 <= i < |line| :: line[i] == c[i - (second + 1)];
  }

  lemma TargetParts(w: WireRequest)
    requires WellFormedLine(w)
    ensures NoSpace(TargetOf(w)) && TargetOf(w) != "" && TargetOf(w)[0] == '/'
    ensures var target := TargetOf(w);
            var q := FindChar(target, '?', 0);
            && (if q.None? then target else target[..q.value]) == w.rawPath
            && (if q.None? then "" else target[q.value + 1..]) == w.query
  {
    hide PercentDecode, FindChar, FindCrlf;
    var target := TargetOf(w);
    if w.query == "" {
      assert target == w.rawPath;
    } else {
      FindCharAt(target, '?', 0, |w.rawPath|);
      assert target[..|w.rawPath|] == w.rawPath && target[|w.rawPath| + 1..] == w.query;
    }
  }

  lemma VersionHasNoSpace(v: string)
    requires VersionWellFormed(v)
    ensures NoSpace(v)
  {
    assert forall i | 0 <= i < 5 :: v[i] == v[..5][i];
  }

  /** `line` is the request line of `w`; an empty query may be written with or without its question mark. */
  predicate Spells(w: WireRequest, line: string)
  {
    line == RequestLineOf(w) || (w.query == "" && line == w.verb + " " + (w.rawPath + "?") + " " + w.version)
  }

  lemma SpelledTarget(w: WireRequest, target: string)
    requires WellFormedLine(w) && (target == TargetOf(w) || (w.query == "" && target == w.rawPath + "?"))
    ensures NoSpace(target) && target != "" && target[0] == '/'
    ensures var q := FindChar(target, '?', 0);
            && (if q.None? then target else target[..q.value]) == w.rawPath
            && (if q.None? then "" else target[q.value + 1..]) == w.query
  {
    hide PercentDecode, FindChar, FindCrlf;
    if target == TargetOf(w) {
      TargetParts(w);
    } else {
      FindCharAt(target, '?', 0, |w.rawPath|);
      assert target[..|w.rawPath|] == w.rawPath && target[|w.rawPath| + 1..] == "";
    }
  }

  /** A spelled line is accepted, as what it spells. */
  lemma SpelledLineAccepted(w: WireRequest, line: string)
    requires WellFormedLine(w) && Spells(w, line)
    ensures ParseRequestLine(line) == Some(HttpRequest(w.verb, w.path, w.query, w.version, map[], ""))
  {
    hide ParseRequestLine, TargetOf, VersionWellFormed, PercentDecode, FindChar, FindCrlf, NoSpace;
    var target := if line == RequestLineOf(w) then TargetOf(w) else w.rawPath + "?";
    SpelledTarget(w, target);
    TargetAccepted(w.verb, target, w.version, w.rawPath, w.query, w.path);
  }

  lemma TargetAccepted(verb: string, target: string, version: string, rawPath: string, query: string, path: string)
    requires verb != "" && NoSpace(verb) && VersionWellFormed(version) && PercentDecode(rawPath) == Some(path)
    requires NoSpace(target) && target != "" && target[0] == '/'
    requires var q := FindChar(target, '?', 0);
             && (if q.None? then target else target[..q.value]) == rawPath
             && (if q.None? then "" else target[q.value + 1..]) == query
    ensures ParseRequestLine(verb + " " + target + " " + version) ==
            Some(HttpRequest(verb, path, query, version, map[], ""))
  {
    hide PercentDecode, FindChar, VersionWellFormed, NoSpace;
    VersionHasNoSpace(version);
    ThreeParts(verb, target, version);
  }

  lemma SplitAtSpaces(line: string, first: nat, second: nat)
    requires FindChar(line, ' ', 0) == Some(first) && FindChar(line, ' ', first + 1) == Some(second)
    requires FindChar(line, ' ', second + 1).None?
    ensures line == line[..first] + " " + line[first + 1..second] + " " + line[second + 1..]
    ensures NoSpace(line[..first]) && NoSpace(line[first + 1..second])
  {
    assert forall i | first + 1 <= i < second :: line[first + 1..second][i - (first + 1)] == line[i];
  }

  lemma SplitAtMark(target: string) returns (rawPath: string, query: string)
    requires NoSpace(target)
    ensures var q := FindChar(target, '?', 0);
            && rawPath == (if q.None? then target else target[..q.value])
            && query == (if q.None? then "" else target[q.value + 1..])
            && NoSpace(rawPath) && NoSpace(query) && (forall i | 0 <= i < |rawPath| :: rawPath[i] != '?')
            && (target == rawPath + (if query == "" then "" else "?" + query) || (query == "" && target == rawPath + "?"))
            && (target != "" && target[0] == '/' ==> rawPath != "" && rawPath[0] == '/')
  {
    var q := FindChar(target, '?', 0);
    rawPath := if q.None? then target else target[..q.value];
    query := if q.None? then "" else target[q.value + 1..];
  }

  /** And nothing else is: an accepted line spells a well-formed request line. */
  lemma AcceptedLineSpelled(line: string) returns (w: WireRequest)
    requires FindCrlf(line).None? && ParseRequestLine(line).Some?
    ensures WellFormedLine(w) && Spells(w, line)
  {
    hide PercentDecode, FindCrlf, VersionWellFormed, FindChar;
    var r := ParseRequestLine(line).value;
    var first := FindChar(line, ' ', 0).value;
    var second := FindChar(line, ' ', first + 1).value;
    SplitAtSpaces(line, first, second);
    var target := line[first + 1..second];
    var rawPath, query := SplitAtMark(target);
    w := WireRequest(r.verb, rawPath, r.path, query, r.version, [], "");
    assert Spells(w, line);
    LineHasNoCrlf(w, line);
  }

  /** The grammar of request lines: exactly those are accepted that spell a well-formed one. */
  lemma RequestLineGrammar(line: string)
    requires FindCrlf(line).None?
    ensures ParseRequestLine(line).Some? <==> exists w :: WellFormedLine(w) && Spells(w, line)
  {
    hide WellFormedLine, Spells, ParseRequestLine;
    if ParseRequestLine(line).Some? {
      var w := AcceptedLineSpelled(line);
    } else if w :| WellFormedLine(w) && Spells(w, line) {
      SpelledLineAccepted(w, line);
    }
  }

  lemma LineHasNoCrlf(w: WireRequest, line: string)
    requires FindCrlf(line).None? && Spells(w, line)
    ensures FindCrlf(RequestLineOf(w)).None?
  {
    var plain := RequestLineOf(w);
    if line != plain {
      var n := |w.verb| + 1 + |w.rawPath|;
      assert forall i | 0 <= i < n :: plain[i] == line[i];
      assert forall i | n <= i < |plain| :: plain[i] == line[i + 1];
      assert plain[n] == ' ';
      forall i | 0 <= i ensures !CrlfAt(plain, i) {
        assert !CrlfAt(line, i) && !CrlfAt(line, i + 1);
      }
    }
  }

  lemma HeaderRoundTrip(h: (string, string))
    requires WellFormedHeader(h)
    ensures ParseHeaderLine(HeaderLineOf(h)) == Some((ToLower(h.0), h.1))
  {
    hide ToLower, FindCrlf;
    var line := HeaderLineOf(h);
    FindCharAt(line, ':', 0, |h.0|);
    assert line[..|h.0|] == h.0;
    assert line[|h.0| + 1..] == " " + h.1;
    assert (" " + h.1)[1..] == h.1;
    assert TrimLeft(" " + h.1) == TrimLeft(h.1);
  }

  /** A parser in the header section, about to read `text`. */
  function InHeaders(text: string, request: HttpRequest, size: nat, count: nat): Parser
  {
    Parser(text, Headers, request, size, count, 0)
  }

  lemma HeaderLineText(h: (string, string))
    requires WellFormedHeader(h)
    ensures FindCrlf(HeaderLineOf(h)).None? && HeaderLineOf(h) != ""
  {
  }

  lemma HeaderStep(limits: Limits, h: (string, string), rest: string, request: HttpRequest, size: nat, count: nat)
    requires WellFormedHeader(h)
    requires size + |HeaderLineOf(h)| + 2 <= limits.maxHeaderBytes && count < limits.maxHeaderCount
    ensures Step(limits, InHeaders(HeaderLineOf(h) + "\r\n" + rest, request, size, count)) ==
            Continue(InHeaders(rest, request.(headers := request.headers[ToLower(h.0) := h.1]),
                               size + |HeaderLineOf(h)| + 2, count + 1))
  {
    hide WellFormedHeader, ParseHeaderLine;
    var line := HeaderLineOf(h);
    HeaderLineText(h);
    FindCrlfLine(line, rest);
    var text := line + "\r\n" + rest;
    assert text[..|line|] == line && text[|line| + 2..] == rest;
    HeaderRoundTrip(h);
  }

  lemma BlankLineStep(limits: Limits, tail: string, request: HttpRequest, size: nat, count: nat)
    requires BodyLength(limits, request.headers).Some?
    ensures Step(limits, InHeaders("" + "\r\n" + tail, request, size, count)) ==
            Continue(Parser(tail, Body, request, size, count, BodyLength(limits, request.headers).value))
  {
    hide BodyLength;
    var text := "" + "\r\n" + tail;
    assert FindCrlf("").None?;
    FindCrlfLine("", tail);
    assert text[2..] == tail;
  }

  /** A step that is not at the limit changes neither what `next` returns nor whether a limit is passed. */
  lemma StepOn(limits: Limits, p: Parser, q: Parser)
    requires Step(limits, p) == Continue(q)
    ensures ParseNext(limits, p) == ParseNext(limits, q)
    ensures !AtLimit(limits, p) ==> PassesLimit(limits, p) == PassesLimit(limits, q)
  {
    hide Step, Drain, AtLimit;
  }

  /** Reading a whole header section and the blank line leaves the parser at the body. */
  lemma {:induction false} HeadersRoundTrip(
    limits: Limits, headers: seq<(string, string)>, tail: string, request: HttpRequest, size: nat, count: nat)
    requires forall i | 0 <= i < |headers| :: WellFormedHeader(headers[i])
    requires size + HeaderSize(headers) <= limits.maxHeaderBytes && count + |headers| <= limits.maxHeaderCount
    requires BodyLength(limits, HeaderMap(headers, request.headers)).Some?
    ensures var m := HeaderMap(headers, request.headers);
            var p := InHeaders(PrintHeaders(headers) + "\r\n" + tail, request, size, count);
            var q := Parser(tail, Body, request.(headers := m), size + HeaderSize(headers), count + |headers|,
                            BodyLength(limits, m).value);
            && ParseNext(limits, p) == ParseNext(limits, q)
            && (limits.maxHeaderBytes > 0 ==> PassesLimit(limits, p) == PassesLimit(limits, q))
    decreases |headers|
  {
    hide WellFormedHeader, BodyLength, Step, PassesLimit, ParseNext;
    var text := PrintHeaders(headers) + "\r\n" + tail;
    var p := InHeaders(text, request, size, count);
    if headers == [] {
      assert text == "" + "\r\n" + tail;
      BlankLineStep(limits, tail, request, size, count);
      StepOn(limits, p, Step(limits, p).p);
    } else {
      var rest := PrintHeaders(headers[1..]) + "\r\n" + tail;
      assert text == HeaderLineOf(headers[0]) + "\r\n" + rest;
      HeaderStep(limits, headers[0], rest, request, size, count);
      HeadersRoundTrip(limits, headers[1..], tail,
                       request.(headers := request.headers[ToLower(headers[0].0) := headers[0].1]),
                       size + |HeaderLineOf(headers[0])| + 2, count + 1);
      StepOn(limits, p, Step(limits, p).p);
    }
  }

  lemma RequestLineRoundTrip(limits: Limits, w: WireRequest, rest: string)
    requires WellFormedLine(w) && |RequestLineOf(w)| <= limits.maxRequestLineLength
    ensures var p := Fresh(RequestLineOf(w) + "\r\n" + rest);
            var q := InHeaders(rest, HttpRequest(w.verb, w.path, w.query, w.version, map[], ""), 0, 0);
            && Step(limits, p) == Continue(q)
            && FindCrlf(p.buffer) == Some(|RequestLineOf(w)|)
  {
    hide ParseRequestLine, PercentDecode;
    var line := RequestLineOf(w);
    FindCrlfLine(line, rest);
    var text := line + "\r\n" + rest;
    assert text[..|line|] == line && text[|line| + 2..] == rest;
    SpelledLineAccepted(w, line);
  }

  /** One printed request, whatever follows it: `next` returns it and keeps exactly what follows. */
  lemma OneRequestRoundTrip(limits: Limits, w: WireRequest, rest: string)
    requires WellFormed(limits, w)
    ensures var p := Fresh(Print(w) + rest);
            && ParseNext(limits, p) == NextResult(Parsed(Received(w)), Fresh(rest))
            && (limits.maxHeaderBytes > 0 && |RequestLineOf(w)| < limits.maxRequestLineLength ==>
                  PassesLimit(limits, p) == PassesLimit(limits, Fresh(rest)))
  {
    hide WellFormedLine, WellFormedHeader, RequestLineOf, HeaderMap, BodyLength, HeadersStep, RequestLineStep, Drain;
    hide PrintHeaders, HeaderSize;
    var tail := w.body + rest;
    var headers := PrintHeaders(w.headers) + "\r\n" + tail;
    assert Print(w) + rest == RequestLineOf(w) + "\r\n" + headers;
    RequestLineRoundTrip(limits, w, headers);
    var start := HttpRequest(w.verb, w.path, w.query, w.version, map[], "");
    HeadersRoundTrip(limits, w.headers, tail, start, 0, 0);
    var q := Parser(tail, Body, start.(headers := HeaderMap(w.headers, map[])), HeaderSize(w.headers), |w.headers|, |w.body|);
    assert tail[..|w.body|] == w.body && tail[|w.body|..] == rest;
    assert Step(limits, q) == Complete(Received(w), Fresh(rest));
  }

  /** A request whose line stands exactly at the limit is such a stream: fed whole it is parsed, and some
      cut makes the parser refuse it. */
  lemma LineAtLimitPasses(limits: Limits, w: WireRequest)
    requires WellFormed(limits, w) && |RequestLineOf(w)| == limits.maxRequestLineLength
    ensures PassesLimit(limits, Fresh(Print(w))) && !CutIndependent(limits, Print(w))
    ensures Drain(limits, Fresh(Print(w))) == Drained([Received(w)], Live(Fresh("")))
  {
    assert Print(w) + "" == Print(w);
    OneRequestRoundTrip(limits, w, "");
    RequestLineRoundTrip(limits, w, PrintHeaders(w.headers) + "\r\n" + w.body);
    assert FindCrlf("").None?;
    hide Step, ParseNext, WellFormed, RequestLineOf, PrintHeaders;
    assert Drain(limits, Fresh("")) == Drained([], Live(Fresh(""))) by { NothingToDrain(limits); }
    FragmentationIndependence(limits, Print(w));
  }

  lemma NothingToDrain(limits: Limits)
    ensures Drain(limits, Fresh("")) == Drained([], Live(Fresh("")))
  {
    assert FindCrlf("").None?;
  }

  // ---------------------------------------------------------------------------------------------
  // Pipelining
  // ---------------------------------------------------------------------------------------------

  /** Every request is well-formed and no request line stands exactly at the limit. */
  predicate AllBelowLimits(limits: Limits, ws: seq<WireRequest>)
  {
    && limits.maxHeaderBytes > 0
    && forall i | 0 <= i < |ws| ::
         WellFormed(limits, ws[i]) && |RequestLineOf(ws[i])| < limits.maxRequestLineLength
  }

  /** Requests printed back to back and fed whole. */
  lemma {:induction false} PipelineRoundTrip(limits: Limits, ws: seq<WireRequest>)
    requires forall i | 0 <= i < |ws| :: WellFormed(limits, ws[i])
    ensures Drain(limits, Fresh(PrintAll(ws))) == Drained(ReceivedAll(ws), Live(Fresh("")))
    ensures AllBelowLimits(limits, ws) ==> !PassesLimit(limits, Fresh(PrintAll(ws)))
    decreases |ws|
  {
    if ws == [] {
      assert FindCrlf("").None?;
    } else {
      hide WellFormed, Print, PassesLimit, ParseNext, RequestLineOf;
      OneRequestRoundTrip(limits, ws[0], PrintAll(ws[1..]));
      PipelineRoundTrip(limits, ws[1..]);
    }
  }

  /** Requests printed back to back, cut anywhere, any number of times: the same list comes out and
      the parser is left empty. */
  lemma AnyCutRoundTrip(limits: Limits, ws: seq<WireRequest>, pieces: seq<string>)
    requires AllBelowLimits(limits, ws)
    requires Concat(pieces) == PrintAll(ws)
    ensures DrainPieces(limits, Fresh(""), pieces) == Drained(ReceivedAll(ws), Live(Fresh("")))
  {
    hide Drain, DrainPieces, WellFormed;
    PipelineRoundTrip(limits, ws);
    FragmentationIndependence(limits, PrintAll(ws));
  }

  /** No proper prefix of a printed request makes `next` return anything but "need more data",
      provided its request line is below the limit. */
  lemma PrefixNeedsMore(limits: Limits, w: WireRequest, n: nat)
    requires AllBelowLimits(limits, [w])
    requires n < |Print(w)|
    ensures ParseNext(limits, Fresh(Print(w)[..n])).status.NeedMoreData?
  {
    hide WellFormed, Print;
    assert [w][0] == w;
    var whole := Print(w);
    var p := Fresh(whole[..n]);
    assert p.Fed(whole[n..]) == Fresh(whole) && whole + "" == whole;
    OneRequestRoundTrip(limits, w, "");
    assert !PassesLimit(limits, Fresh(whole)) by {
      PipelineRoundTrip(limits, [w]);
      assert PrintAll([w]) == whole + "" by { assert [w][1..] == []; }
    }
    var rest := whole[n..];
    NextStable(limits, p, rest);
    DrainSplit(limits, p, rest);
    assert forall q: Parser :: |q.Fed(rest).buffer| >= |rest| > 0;
  }

  // ---------------------------------------------------------------------------------------------
  // Plain headers
  // ---------------------------------------------------------------------------------------------

  /** Text without CR, and without blanks at its two ends. */
  predicate Tidy(s: string)
  {
    && (forall i | 0 <= i < |s| :: s[i] != '\r')
    && (s != "" ==> !IsOws(s[0]) && !IsOws(s[|s| - 1]))
  }

  lemma TidyHeader(h: (string, string))
    requires h.0 != "" && Tidy(h.0) && Tidy(h.1)
    requires forall i | 0 <= i < |h.0| :: h.0[i] != ':'
    ensures WellFormedHeader(h)
  {
    var line := HeaderLineOf(h);
    assert forall i | 0 <= i < |line| :: line[i] != '\r';
    assert forall i :: !CrlfAt(line, i);
    assert TrimLeft(h.1) == h.1 == TrimRight(h.1);
  }
}
