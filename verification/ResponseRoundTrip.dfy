/** What the server prints the client reads: response heads, header scanning, and bodies of any
    content, in any cutting of the received bytes; and the two request heads the client prints. */
module ResponseRoundTrip {
  import opened Common
  import opened Decimal
  import opened HttpText
  import opened HttpResponse
  import opened HttpClient
  import opened HttpGrammar

  predicate Clean(s: string)
  {
    forall i | 0 <= i < |s| :: s[i] != '\r' && s[i] != '\n'
  }

  predicate CleanLines(lines: seq<string>)
  {
    forall i | 0 <= i < |lines| :: lines[i] != "" && Clean(lines[i])
  }

  /** Lines separated by CR LF. */
  function Join(lines: seq<string>): string
    requires lines != []
  {
    if |lines| == 1 then lines[0] else lines[0] + "\r\n" + Join(lines[1..])
  }

  const BLANK := "\r\n\r\n"

  // ---------------------------------------------------------------------------------------------
  // The head ends where the client looks for its end
  // ---------------------------------------------------------------------------------------------

  lemma FindBlankAt(s: string, k: nat)
    requires BlankAt(s, k) && forall i | 0 <= i < k :: !BlankAt(s, i)
    ensures FindBlank(s) == Some(k)
  {
  }

  lemma FindBlankAppend(s: string, t: string)
    requires FindBlank(s).Some?
    ensures FindBlank(s + t) == FindBlank(s)
  {
    var k := FindBlank(s).value;
    assert BlankAt(s + t, k);
    assert forall i | 0 <= i < k :: BlankAt(s + t, i) == BlankAt(s, i);
  }

  lemma BlankShift(front: string, t: string, j: nat)
    ensures BlankAt(front + t, |front| + j) == BlankAt(t, j)
  {
  }

  lemma {:induction false} JoinBlank(lines: seq<string>, rest: string)
    requires lines != [] && CleanLines(lines)
    ensures FindBlank(Join(lines) + BLANK + rest) == Some(|Join(lines)|)
    decreases |lines|
  {
    var s := Join(lines) + BLANK + rest;
    var n := |lines[0]|;
    assert s[..n] == lines[0];
    assert forall i | 0 <= i < n :: s[i] == lines[0][i];
    if |lines| == 1 {
      FindBlankAt(s, n);
    } else {
      hide Join;
      var t := Join(lines[1..]) + BLANK + rest;
      JoinBlank(lines[1..], rest);
      JoinStarts(lines[1..]);
      JoinUnfold(lines);
      assert s == lines[0] + "\r\n" + t;
      var k := |Join(lines[1..])|;
      forall i | 0 <= i < n + 2 + k ensures !BlankAt(s, i) {
        if i >= n + 2 {
          BlankShift(lines[0] + "\r\n", t, i - (n + 2));
        }
      }
      BlankShift(lines[0] + "\r\n", t, k);
      FindBlankAt(s, n + 2 + k);
    }
  }

  lemma JoinUnfold(lines: seq<string>)
    requires |lines| > 1
    ensures Join(lines) == lines[0] + "\r\n" + Join(lines[1..])
  {
  }

  lemma JoinStarts(lines: seq<string>)
    requires lines != [] && CleanLines(lines)
    ensures Join(lines) != "" && Join(lines)[0] != '\r' && Join(lines)[0] != '\n'
  {
  }

  // ---------------------------------------------------------------------------------------------
  // The head the server prints
  // ---------------------------------------------------------------------------------------------

  function HeaderTexts(keys: seq<string>, m: map<string, string>): seq<string>
    requires forall k | k in keys :: k in m
  {
    if keys == [] then [] else [keys[0] + ": " + m[keys[0]]] + HeaderTexts(keys[1..], m)
  }

  function Terminated(lines: seq<string>): string
  {
    if lines == [] then "" else lines[0] + "\r\n" + Terminated(lines[1..])
  }

  lemma {:induction false} TerminatedIsJoin(lines: seq<string>)
    requires lines != []
    ensures Terminated(lines) == Join(lines) + "\r\n"
    decreases |lines|
  {
    if |lines| == 1 {
      assert Terminated(lines[1..]) == "";
    } else {
      TerminatedIsJoin(lines[1..]);
    }
  }

  lemma {:induction false} HeaderLinesTerminated(keys: seq<string>, m: map<string, string>)
    requires forall k | k in keys :: k in m
    ensures HeaderLines(keys, m) == Terminated(HeaderTexts(keys, m))
    decreases |keys|
  {
    if keys != [] {
      HeaderLinesTerminated(keys[1..], m);
      assert HeaderTexts(keys, m)[1..] == HeaderTexts(keys[1..], m);
    }
  }

  function LinesOf(r: HttpResponse, keys: seq<string>): seq<string>
    requires forall k | k in keys :: k in WireHeaders(r)
  {
    [StatusLine(r.status)] + HeaderTexts(keys, WireHeaders(r))
  }

  lemma HeadIsJoin(r: HttpResponse, keys: seq<string>)
    requires forall k | k in keys :: k in WireHeaders(r)
    ensures Head(r, keys) == Join(LinesOf(r, keys)) + BLANK
  {
    hide StatusLine, WireHeaders;
    var lines := LinesOf(r, keys);
    TerminatedIsJoin(lines);
    HeaderLinesTerminated(keys, WireHeaders(r));
    assert lines[1..] == HeaderTexts(keys, WireHeaders(r));
    assert Head(r, keys) == Terminated(lines) + "\r\n";
    assert Join(lines) + "\r\n" + "\r\n" == Join(lines) + BLANK;
  }

  lemma {:induction false} HeaderTextAt(keys: seq<string>, m: map<string, string>, i: nat)
    requires i < |keys| && forall k | k in keys :: k in m
    ensures |HeaderTexts(keys, m)| == |keys| && HeaderTexts(keys, m)[i] == keys[i] + ": " + m[keys[i]]
    decreases |keys|
  {
    if i > 0 {
      HeaderTextAt(keys[1..], m, i - 1);
    } else if |keys| > 1 {
      HeaderTextAt(keys[1..], m, 0);
    }
  }

  /** The lines of a response head are the status line and then each header, which a reader of header lines
      takes apart into the name, case aside, and the value. */
  lemma HeadersReadBack(r: HttpResponse, keys: seq<string>, i: nat)
    requires i < |keys| && forall k | k in keys :: k in WireHeaders(r)
    requires keys[i] != "" && NoColon(keys[i]) && Trimmed(keys[i]) && Trimmed(WireHeaders(r)[keys[i]])
    ensures var lines := LinesOf(r, keys);
            && Head(r, keys) == Join(lines) + BLANK && |lines| == |keys| + 1 && lines[0] == StatusLine(r.status)
            && ParseHeaderLine(lines[i + 1]) == Some((ToLower(keys[i]), WireHeaders(r)[keys[i]]))
  {
    hide WireHeaders, StatusLine, ParseHeaderLine, Head, Join, ToLower, Lower, SameName;
    HeadIsJoin(r, keys);
    HeaderTextAt(keys, WireHeaders(r), i);
    var key, value := keys[i], WireHeaders(r)[keys[i]];
    var line := LinesOf(r, keys)[i + 1];
    assert line == key + ":" + (" " + value);
    assert Blanks("") && Blanks(" ") && "" + key + "" == key && " " + value + "" == " " + value;
    assert Padded(key, key) && Padded(" " + value, value);
    LowerMeaning(key, ToLower(key));
    HeaderLineGrammar(line, ToLower(key), value);
    assert IsHeaderLine(line, key, key, " " + value, ToLower(key), value);
  }

  /** Header text a handler may set: no line breaks, names without colon, one spelling of the length header. */
  predicate PlainHeaders(m: map<string, string>)
  {
    forall k | k in m ::
      && k != "" && Clean(k) && Clean(m[k]) && NoColon(k)
      && (ToLower(k) == LENGTH_NAME ==> k == "Content-Length")
  }

  // ---------------------------------------------------------------------------------------------
  // Header scanning
  // ---------------------------------------------------------------------------------------------

  function LengthOver(lines: seq<string>, length: int): int
  {
    if lines == [] then length else LengthOver(lines[1..], LengthOn(lines[0], length))
  }

  lemma LineEndAt(s: string, k: nat)
    requires k < |s| && s[k] == '\n' && forall i | 0 <= i < k :: s[i] != '\n'
    ensures LineEnd(s) == Some(k)
  {
  }

  lemma CarriageReturnIgnored(line: string, length: int)
    requires line != "" && Clean(line)
    ensures LengthOn(line + "\r", length) == LengthOn(line, length)
  {
    hide ToLower, LeadingNumber;
    assert (line + "\r")[..|line|] == line;
  }

  lemma {:induction false} ScanIsPerLine(lines: seq<string>, length: int)
    requires lines != [] && CleanLines(lines)
    ensures LengthIn(Join(lines), length) == LengthOver(lines, length)
    decreases |lines|
  {
    hide LengthOn;
    JoinStarts(lines);
    var s := Join(lines);
    if |lines| == 1 {
      assert LineEnd(s).None?;
      assert LengthOver(lines[1..], LengthOn(lines[0], length)) == LengthOn(lines[0], length);
    } else {
      var n := |lines[0]|;
      JoinUnfold(lines);
      assert forall i | 0 <= i < n :: s[i] == lines[0][i];
      LineEndAt(s, n + 1);
      assert s[..n + 1] == lines[0] + "\r" && s[n + 2..] == Join(lines[1..]);
      CarriageReturnIgnored(lines[0], length);
      ScanIsPerLine(lines[1..], LengthOn(lines[0], length));
    }
  }

  const LENGTH_NAME := "content-length"

  predicate NoColon(s: string)
  {
    forall i | 0 <= i < |s| :: s[i] != ':'
  }

  /** A line that starts like the length header has the length header's name. */
  lemma PrefixNamesKey(k: string, v: string)
    requires NoColon(k)
    requires var line := k + ": " + v;
             |line| > |LENGTH_NAME| && ToLower(line[..|LENGTH_NAME| + 1]) == LENGTH_NAME + ":"
    ensures ToLower(k) == LENGTH_NAME
  {
    hide ToLower;
    var line := k + ": " + v;
    var n := |LENGTH_NAME|;
    var lower := ToLower(line[..n + 1]);
    assert NoColon(LENGTH_NAME);
    assert lower[n] == ':' && line[n] == ':' && line[|k|] == ':';
    assert forall i | 0 <= i < n :: LowerChar(line[i]) == lower[i] == LENGTH_NAME[i];
    assert |k| == n;
    assert forall i | 0 <= i < n :: ToLower(k)[i] == LowerChar(line[i]);
  }

  lemma OtherHeader(k: string, v: string, length: int)
    requires Clean(k) && Clean(v) && NoColon(k) && ToLower(k) != LENGTH_NAME
    ensures LengthOn(k + ": " + v, length) == length
  {
    hide LeadingNumber, ToLower, NoColon;
    var line := k + ": " + v;
    assert Clean(line);
    assert LENGTH_PREFIX == LENGTH_NAME + ":";
    if |line| >= |LENGTH_PREFIX| && ToLower(line[..|LENGTH_PREFIX|]) == LENGTH_PREFIX {
      PrefixNamesKey(k, v);
    }
  }

  lemma {:induction false} DigitsKept(d: string, rest: string)
    requires AllDigits(d) && (rest == "" || !IsDigit(rest[0]))
    ensures DigitsOf(d + rest) == d
    decreases |d|
  {
    if d != "" {
      assert (d + rest)[1..] == d[1..] + rest;
      DigitsKept(d[1..], rest);
    } else {
      assert d + rest == rest;
    }
  }

  lemma NumberAfterBlank(n: nat, rest: string, most: nat)
    requires n <= most && (rest == "" || !IsDigit(rest[0]))
    ensures LeadingNumber(" " + ToText(n) + rest, most) == n
  {
    var d := ToText(n);
    var s := " " + d + rest;
    assert s[1..] == d + rest && IsDigit(d[0]);
    assert SkipSpace(s) == SkipSpace(d + rest) == d + rest;
    DigitsKept(d, rest);
    ValueToText(n);
  }

  lemma LengthHeader(n: nat, length: int)
    requires n <= I64_MAX
    ensures LengthOn("Content-Length: " + ToText(n), length) == n
  {
    hide LeadingNumber, ToText, ToLower;
    var d := ToText(n);
    var line := "Content-Length: " + d;
    assert line[|line| - 1] == d[|d| - 1] && IsDigit(d[|d| - 1]);
    assert line[..15] == "Content-Length" + ":" && line[15..] == " " + d;
    LowerOfLengthName();
    assert LENGTH_PREFIX == LENGTH_NAME + ":";
    assert " " + d + "" == " " + d;
    NumberAfterBlank(n, "", I64_MAX);
  }

  lemma LowerConcat(a: string, b: string)
    ensures ToLower(a + b) == ToLower(a) + ToLower(b)
  {
    hide ToLower;
    assert forall i | 0 <= i < |a + b| :: ToLower(a + b)[i] == (ToLower(a) + ToLower(b))[i];
  }

  lemma LowerLetters()
    ensures ToLower("C") == "c" && ToLower("L") == "l" && ToLower(":") == ":"
  {
  }

  lemma LengthNameSpelled()
    ensures "C" + "ontent-" + ("L" + "ength") == "Content-Length"
    ensures "c" + "ontent-" + ("l" + "ength") == LENGTH_NAME
    ensures Lower("ontent-") && Lower("ength")
  {
  }

  lemma LowerOfLengthName()
    ensures ToLower("Content-Length") == LENGTH_NAME
    ensures ToLower("Content-Length" + ":") == LENGTH_NAME + ":"
  {
    hide ToLower, Lower;
    LowerLetters();
    LengthNameSpelled();
    var front, back := "ontent-", "ength";
    LowerKept(front);
    LowerKept(back);
    LowerConcat("C", front);
    LowerConcat("L", back);
    LowerConcat("C" + front, "L" + back);
    LowerConcat("Content-Length", ":");
  }

  lemma OneHeader(k: string, m: map<string, string>, n: nat, length: int)
    requires k in m && PlainHeaders(m) && n <= I64_MAX
    requires k == "Content-Length" ==> m[k] == ToText(n)
    ensures LengthOn(k + ": " + m[k], length) == if k == "Content-Length" then n else length
    ensures Clean(k + ": " + m[k])
  {
    hide LengthOn, ToText, ToLower;
    if k == "Content-Length" {
      LengthHeader(n, length);
      assert k + ": " + ToText(n) == "Content-Length: " + ToText(n);
    } else {
      OtherHeader(k, m[k], length);
    }
  }

  /** Scanning finds the one length header, wherever the map walk put it. */
  lemma {:induction false} ScanFindsLength(keys: seq<string>, m: map<string, string>, n: nat, length: int)
    requires forall k | k in keys :: k in m
    requires PlainHeaders(m) && n <= I64_MAX
    requires "Content-Length" in m && m["Content-Length"] == ToText(n)
    ensures LengthOver(HeaderTexts(keys, m), length) == if "Content-Length" in keys then n else length
    ensures CleanLines(HeaderTexts(keys, m))
    decreases |keys|
  {
    if keys != [] {
      hide LengthOn, ToText, PlainHeaders, Clean;
      var k := keys[0];
      var line := k + ": " + m[k];
      var texts := HeaderTexts(keys, m);
      assert texts[0] == line && texts[1..] == HeaderTexts(keys[1..], m);
      OneHeader(k, m, n, length);
      ScanFindsLength(keys[1..], m, n, LengthOn(line, length));
    }
  }

  // ---------------------------------------------------------------------------------------------
  // The status line
  // ---------------------------------------------------------------------------------------------

  lemma {:induction false} WordSkipped(w: string, rest: string)
    requires forall i | 0 <= i < |w| :: !IsSpace(w[i])
    requires rest == "" || IsSpace(rest[0])
    ensures SkipWord(w + rest) == rest
    decreases |w|
  {
    if w != "" {
      assert (w + rest)[1..] == w[1..] + rest;
      WordSkipped(w[1..], rest);
    } else {
      assert w + rest == rest;
    }
  }

  lemma StatusRead(s: HttpStatus)
    ensures StatusOf(StatusLine(s) + "\r") == Code(s)
  {
    hide LeadingNumber, ToText, ReasonPhrase;
    var rest := " " + ToText(Code(s)) + (" " + ReasonPhrase(s) + "\r");
    var line := StatusLine(s) + "\r";
    assert line == "HTTP/1.1" + rest;
    assert line[0] == 'H' && SkipSpace(line) == line;
    WordSkipped("HTTP/1.1", rest);
    NumberAfterBlank(Code(s), " " + ReasonPhrase(s) + "\r", 0x7FFF_FFFF);
  }

  lemma ReasonClean(s: HttpStatus)
    ensures Clean(ReasonPhrase(s))
  {
    match s
    case Ok => assert Clean("OK");
    case Created => assert Clean("Created");
    case NoContent => assert Clean("No Content");
    case PartialContent => assert Clean("Partial Content");
    case BadRequest => assert Clean("Bad Request");
    case NotFound => assert Clean("Not Found");
    case MethodNotAllowed => assert Clean("Method Not Allowed");
    case RangeNotSatisfiable => assert Clean("Range Not Satisfiable");
    case InternalServerError => assert Clean("Internal Server Error");
  }

  lemma StatusLineClean(s: HttpStatus)
    ensures StatusLine(s) != "" && Clean(StatusLine(s))
  {
    hide ToText, ReasonPhrase;
    ReasonClean(s);
    var d := ToText(Code(s));
    assert Clean(d) by {
      assert forall i | 0 <= i < |d| :: IsDigit(d[i]);
    }
    assert Clean("HTTP/1.1 ");
    assert Clean("HTTP/1.1 " + d + " ");
  }

  // ---------------------------------------------------------------------------------------------
  // Reading
  // ---------------------------------------------------------------------------------------------

  /** How the client splits a head: the status line, then the header lines. */
  ghost predicate SplitsInto(head: string, statusLine: string, headers: string)
  {
    && LineEnd(head).Some?
    && head[..LineEnd(head).value] == statusLine && head[LineEnd(head).value + 1..] == headers
  }

  lemma JoinSplits(lines: seq<string>)
    requires |lines| > 1 && CleanLines(lines)
    ensures SplitsInto(Join(lines), lines[0] + "\r", Join(lines[1..]))
  {
    var head := Join(lines);
    var k := |lines[0]|;
    JoinUnfold(lines);
    hide Join;
    assert forall i | 0 <= i < k :: head[i] == lines[0][i];
    LineEndAt(head, k + 1);
    assert head[..k + 1] == lines[0] + "\r" && head[k + 2..] == Join(lines[1..]);
  }

  /** What the client makes of the head of a response. */
  lemma HeadRead(r: HttpResponse, keys: seq<string>, rest: string, n: nat) returns (head: string, headers: string)
    requires Enumerates(keys, WireHeaders(r)) && PlainHeaders(WireHeaders(r)) && n <= I64_MAX
    requires "Content-Length" in WireHeaders(r) && WireHeaders(r)["Content-Length"] == ToText(n)
    requires forall k | k in keys :: k in WireHeaders(r)
    ensures Head(r, keys) == head + BLANK
    ensures FindBlank(head + BLANK + rest) == Some(|head|)
    ensures SplitsInto(head, StatusLine(r.status) + "\r", headers)
    ensures LengthIn(headers, -1) == n
  {
    hide StatusLine, LengthIn, WireHeaders, ToText, LengthOver, SplitsInto, Head, PlainHeaders;
    var texts := HeaderTexts(keys, WireHeaders(r));
    var lines := LinesOf(r, keys);
    ScanFindsLength(keys, WireHeaders(r), n, -1);
    StatusLineClean(r.status);
    assert lines[1..] == texts && keys != [];
    HeadIsJoin(r, keys);
    JoinBlank(lines, rest);
    JoinSplits(lines);
    head, headers := Join(lines), Join(texts);
    ScanIsPerLine(texts, -1);
  }

  /** The first event, and what the rest delivers. */
  lemma EventsUnfold(events: seq<Received>)
    requires events != [] && !events[0].RecvError?
    ensures Breaks(events) <==> Breaks(events[1..])
    ensures BytesOf(events) == (if events[0].Data? then events[0].bytes else "") + BytesOf(events[1..])
  {
    assert forall i | 0 < i < |events| :: events[i] == events[1..][i - 1];
  }

  lemma {:induction false} BodyRead(status: int, body: string, length: nat, events: seq<Received>)
    requires |body| + |BytesOf(events)| <= length
    ensures ReadLength(status, body, length, events) ==
            if Breaks(events) && |body| + |BytesOf(events)| < length
            then ClientResponse(false, status, "", "recv() failed while reading body")
            else ClientResponse(true, status, body + BytesOf(events), "")
    decreases |events|
  {
    if |body| >= length || events == [] {
      assert BytesOf(events) == "" && body + "" == body;
    } else if !events[0].RecvError? {
      EventsUnfold(events);
      var data := if events[0].Data? then events[0].bytes else "";
      assert body + (data + BytesOf(events[1..])) == body + data + BytesOf(events[1..]);
      assert body + "" == body;
      BodyRead(status, body + data, length, events[1..]);
    } else {
      assert events[0].RecvError?;
    }
  }

  /** What the client makes of a response of which `got` arrives before the peer closes or, if `broken`, an
      error comes: a head that is not complete is a failure, and so is an error before the body is; but a body
      cut short by closing is taken for the whole. */
  function Outcome(r: HttpResponse, keys: seq<string>, got: string, broken: bool): ClientResponse
    requires r.Valid() && forall k | k in keys :: k in WireHeaders(r)
  {
    var n := |Head(r, keys)|;
    if |got| < n then
      ClientResponse(false, 0, "",
                     if broken then "recv() failed while reading headers" else "connection closed before headers completed")
    else if broken && |got| < n + |r.BodyBytes()| then
      ClientResponse(false, Code(r.status), "", "recv() failed while reading body")
    else ClientResponse(true, Code(r.status), got[n..], "")
  }

  /** The head, within what has come when the blank line is in. */
  lemma HeadInRaw(r: HttpResponse, keys: seq<string>, raw: string) returns (head: string, headers: string)
    requires Readable(r) && Enumerates(keys, WireHeaders(r))
    requires forall k | k in keys :: k in WireHeaders(r)
    requires raw <= ResponseBytes(r, keys, false) && FindBlank(raw).Some?
    ensures |head| + 4 == |Head(r, keys)| <= |raw| && raw[..|head|] == head && FindBlank(raw) == Some(|head|)
    ensures SplitsInto(head, StatusLine(r.status) + "\r", headers) && LengthIn(headers, -1) == |r.BodyBytes()|
  {
    LengthIsTold(r);
    hide LengthIn, StatusLine, WireHeaders, ToText, Head, SplitsInto, Enumerates, PlainHeaders, FindBlank;
    var body := r.BodyBytes();
    var whole := Head(r, keys) + body;
    head, headers := HeadRead(r, keys, body, |body|);
    assert whole == raw + whole[|raw|..];
    FindBlankAppend(raw, whole[|raw|..]);
    FoundInside(raw, |head|);
    SplitRaw(raw, whole[|raw|..], head, body);
  }

  /** From the moment the blank line is in. */
  lemma RestRead(r: HttpResponse, keys: seq<string>, raw: string, events: seq<Received>)
    requires Readable(r) && Enumerates(keys, WireHeaders(r))
    requires forall k | k in keys :: k in WireHeaders(r)
    requires raw + BytesOf(events) <= ResponseBytes(r, keys, false) && FindBlank(raw).Some?
    ensures ReadBody(raw, events) == Outcome(r, keys, raw + BytesOf(events), Breaks(events))
  {
    hide LengthIn, StatusOf, WireHeaders, Head, ReadBody, ReadLength, SplitsInto, Enumerates, Readable, FindBlank, StatusLine;
    assert raw <= raw + BytesOf(events);
    var head, headers := HeadInRaw(r, keys, raw);
    assert r.Valid() by { ReadableIsValid(r); }
    BodyPart(raw, events, head, StatusLine(r.status) + "\r", headers);
    StatusRead(r.status);
    var got := raw + BytesOf(events);
    assert got[|head| + 4..] == raw[|head| + 4..] + BytesOf(events);
    BodyRead(Code(r.status), raw[|head| + 4..], |r.BodyBytes()|, events);
  }

  lemma ReadableIsValid(r: HttpResponse)
    requires Readable(r)
    ensures r.Valid()
  {
  }

  lemma FoundInside(raw: string, k: nat)
    requires FindBlank(raw) == Some(k)
    ensures k + 4 <= |raw|
  {
  }

  /** `readResponse` from the blank line on, when the head splits as it should. */
  lemma BodyPart(raw: string, events: seq<Received>, head: string, statusLine: string, headers: string)
    requires FindBlank(raw) == Some(|head|) && |head| + 4 <= |raw| && raw[..|head|] == head
    requires SplitsInto(head, statusLine, headers) && LengthIn(headers, -1) >= 0
    ensures ReadBody(raw, events) == ReadLength(StatusOf(statusLine), raw[|head| + 4..], LengthIn(headers, -1), events)
  {
    hide LengthIn, StatusOf, ReadLength;
  }

  lemma SplitRaw(raw: string, tail: string, head: string, body: string)
    requires raw + tail == head + BLANK + body && |head| + 4 <= |raw|
    ensures raw[..|head|] == head && raw[|head| + 4..] + tail == body
  {
    var whole := head + BLANK + body;
    assert raw[..|head|] == whole[..|head|];
    assert raw[|head| + 4..] + tail == whole[|head| + 4..];
  }

  /** A response whose header text is plain and whose length header tells its length (in memory, it
      always does). */
  predicate Readable(r: HttpResponse)
  {
    && r.Valid() && |r.BodyBytes()| <= I64_MAX
    && PlainHeaders(WireHeaders(r))
    && (r.body.Streaming? ==>
          "Content-Length" in r.headers && r.headers["Content-Length"] == ToText(|r.BodyBytes()|))
  }

  lemma LengthIsTold(r: HttpResponse)
    requires Readable(r)
    ensures "Content-Length" in WireHeaders(r) && WireHeaders(r)["Content-Length"] == ToText(|r.BodyBytes()|)
  {
  }

  /** Before the blank line is in. */
  lemma {:induction false} AllRead(r: HttpResponse, keys: seq<string>, raw: string, events: seq<Received>)
    requires Readable(r) && Enumerates(keys, WireHeaders(r))
    requires forall k | k in keys :: k in WireHeaders(r)
    requires raw + BytesOf(events) <= ResponseBytes(r, keys, false) && FindBlank(raw).None?
    ensures ReadHead(raw, events) == Outcome(r, keys, raw + BytesOf(events), Breaks(events))
    decreases |events|
  {
    hide WireHeaders, Head, ReadBody, Enumerates, Readable, ResponseBytes, FindBlank, HttpResponse.BodyBytes;
    if events == [] || events[0].RecvError? {
      assert raw + "" == raw;
      ShortOfHead(r, keys, raw);
      assert events != [] ==> Breaks(events);
    } else {
      EventsUnfold(events);
      var data := if events[0].Data? then events[0].bytes else "";
      assert raw + data + BytesOf(events[1..]) == raw + BytesOf(events);
      assert raw + "" == raw;
      if FindBlank(raw + data).Some? {
        RestRead(r, keys, raw + data, events[1..]);
      } else {
        AllRead(r, keys, raw + data, events[1..]);
      }
    }
  }

  lemma HeadHasBlank(r: HttpResponse, keys: seq<string>, rest: string)
    requires Readable(r) && Enumerates(keys, WireHeaders(r))
    requires forall k | k in keys :: k in WireHeaders(r)
    ensures FindBlank(Head(r, keys) + rest).Some?
  {
    LengthIsTold(r);
    hide WireHeaders, Head, Enumerates, PlainHeaders, FindBlank, LengthIn, SplitsInto, StatusLine;
    var head, headers := HeadRead(r, keys, rest, |r.BodyBytes()|);
  }

  lemma SplitAtHead(raw: string, head: string, body: string)
    requires raw <= head + body && |raw| >= |head|
    ensures raw == head + raw[|head|..]
  {
    assert raw[..|head|] == head;
  }

  /** Without the blank line the head is not complete. */
  lemma ShortOfHead(r: HttpResponse, keys: seq<string>, raw: string)
    requires Readable(r) && Enumerates(keys, WireHeaders(r))
    requires forall k | k in keys :: k in WireHeaders(r)
    requires raw <= ResponseBytes(r, keys, false) && FindBlank(raw).None?
    ensures |raw| < |Head(r, keys)|
  {
    ReadableIsValid(r);
    hide WireHeaders, Head, Enumerates, Readable, FindBlank;
    var n := |Head(r, keys)|;
    if |raw| >= n {
      SplitAtHead(raw, Head(r, keys), r.BodyBytes());
      HeadHasBlank(r, keys, raw[n..]);
    }
  }

  /** What `readResponse` makes of any part of a response, in whatever pieces it comes and however it ends. */
  lemma ClientOutcome(r: HttpResponse, keys: seq<string>, events: seq<Received>)
    requires Readable(r) && Enumerates(keys, WireHeaders(r))
    requires forall k | k in keys :: k in WireHeaders(r)
    requires BytesOf(events) <= ResponseBytes(r, keys, false)
    ensures ReadHead("", events) == Outcome(r, keys, BytesOf(events), Breaks(events))
  {
    hide Head, Readable, Enumerates, ResponseBytes, Outcome;
    assert "" + BytesOf(events) == BytesOf(events);
    AllRead(r, keys, "", events);
  }

  /** Response round trip: whatever the body holds and however `recv` cuts the bytes, the client gets
      the status code and the body the server wrote. An error after the last byte does no harm. */
  lemma ClientReadsResponse(r: HttpResponse, keys: seq<string>, events: seq<Received>)
    requires Readable(r) && Enumerates(keys, WireHeaders(r))
    requires forall k | k in keys :: k in WireHeaders(r)
    requires BytesOf(events) == ResponseBytes(r, keys, false)
    ensures ReadHead("", events) == ClientResponse(true, Code(r.status), r.BodyBytes(), "")
  {
    hide Head, PlainHeaders, Enumerates, ToText;
    ClientOutcome(r, keys, events);
  }

  /** And only then: the client reports success with the whole body exactly when all bytes came, and success
      with less exactly when the peer closed within the body. */
  lemma TruncatedIsAccepted(r: HttpResponse, keys: seq<string>, events: seq<Received>)
    requires Readable(r) && Enumerates(keys, WireHeaders(r))
    requires forall k | k in keys :: k in WireHeaders(r)
    requires BytesOf(events) <= ResponseBytes(r, keys, false)
    ensures var result, got := ReadHead("", events), BytesOf(events);
            && (result.connected && result.body == r.BodyBytes() <==> got == ResponseBytes(r, keys, false))
            && (result.connected && result.body != r.BodyBytes() <==>
                  !Breaks(events) && |Head(r, keys)| <= |got| < |ResponseBytes(r, keys, false)|)
  {
    hide Head, PlainHeaders, Enumerates, ToText;
    ClientOutcome(r, keys, events);
    var n, got := |Head(r, keys)|, BytesOf(events);
    if |got| >= n {
      assert got == Head(r, keys) + got[n..];
    }
  }

  /** Without an announced length the body is what comes until the peer closes or an error does, and that is
      taken for success. */
  lemma {:induction false} BodyToClose(status: int, body: string, events: seq<Received>)
    ensures ReadToClose(status, body, events) == ClientResponse(true, status, body + BytesOf(events), "")
    decreases |events|
  {
    if events == [] || events[0].RecvError? {
      assert body + "" == body;
    } else {
      EventsUnfold(events);
      var data := if events[0].Data? then events[0].bytes else "";
      assert body + (data + BytesOf(events[1..])) == body + data + BytesOf(events[1..]) && body + "" == body;
      BodyToClose(status, body + data, events[1..]);
    }
  }

  // ---------------------------------------------------------------------------------------------
  // Numbers as the client reads them
  // ---------------------------------------------------------------------------------------------

  predicate IsSign(sign: string) { sign == "" || sign == "+" || sign == "-" }

  /** What `isspace` takes for blanks in the C locale. */
  predicate Spaces(s: string)
  {
    forall i | 0 <= i < |s| :: s[i] in {' ', '\t', '\n', '\r', '\U{00000B}', '\U{00000C}'}
  }

  lemma {:induction false} SpaceSkipped(space: string, rest: string)
    requires Spaces(space)
    requires rest == "" || !IsSpace(rest[0])
    ensures SkipSpace(space + rest) == rest
    decreases |space|
  {
    if space != "" {
      assert (space + rest)[1..] == space[1..] + rest && (space + rest)[0] == space[0];
      assert IsSpace(space[0]);
      SpaceSkipped(space[1..], rest);
    } else {
      assert space + rest == rest;
    }
  }

  lemma SignedNumber(sign: string, digits: string, rest: string, most: nat)
    requires IsSign(sign) && digits != "" && AllDigits(digits) && (rest == "" || !IsDigit(rest[0]))
    ensures !IsSpace((sign + digits + rest)[0])
    ensures SignedAt(sign + digits + rest, most) ==
            Clamp(if sign == "-" then -(Value(digits) as int) else Value(digits), most)
  {
    hide Value, Clamp, DigitsOf;
    var text := sign + digits + rest;
    DigitsKept(digits, rest);
    if sign == "" {
      assert text == digits + rest && text[0] == digits[0] && IsDigit(text[0]);
    } else {
      assert text[0] == sign[0] && text[1..] == digits + rest;
    }
  }

  /** The number at the front of a text: blanks and a sign before it, anything but a digit behind it. It is the
      number itself if the type holds it, and otherwise the end of the type on its side. */
  lemma NumberMeaning(space: string, sign: string, digits: string, rest: string, most: nat)
    requires Spaces(space)
    requires IsSign(sign) && digits != "" && AllDigits(digits) && (rest == "" || !IsDigit(rest[0]))
    ensures var v := if sign == "-" then -(Value(digits) as int) else Value(digits);
            var n := LeadingNumber(space + sign + digits + rest, most);
            && n <= most && n + most >= -1 && (v <= most && v + most >= -1 ==> n == v)
            && (v > most ==> n == most) && (v + most < -1 ==> n + most == -1)
  {
    hide SkipSpace, Value, SignedAt, IsSpace, DigitsOf, Spaces;
    var text := sign + digits + rest;
    SignedNumber(sign, digits, rest, most);
    SpaceSkipped(space, text);
    assert space + sign + digits + rest == space + text;
  }
}
