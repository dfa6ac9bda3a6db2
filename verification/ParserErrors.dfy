/** What a parser that has reported an error does if it is kept in use. */
module ParserErrors {
  import opened Common
  import opened Decimal
  import opened HttpText
  import opened HttpGrammar
  import opened HttpParser
  import opened Fragmentation
  import opened RequestRoundTrip

  /** The parser at the step that fails, in the run of `next` that reports the error. */
  function FailingAt(limits: Limits, p: Parser): (q: Parser)
    requires ParseNext(limits, p).status.Error?
    ensures Step(limits, q).Failed? && ParseNext(limits, p).p == Step(limits, q).p
    decreases Fuel(p)
  {
    var step := Step(limits, p);
    if step.Continue? then FailingAt(limits, step.p) else p
  }

  /** The error comes out of `finishHeaders`, at the blank line. */
  predicate FailsAtBlankLine(limits: Limits, p: Parser)
    requires ParseNext(limits, p).status.Error?
  {
    FailingAt(limits, p).state.Headers? && FindCrlf(FailingAt(limits, p).buffer) == Some(0)
  }

  /** Any other error sticks: a parser that is kept in use reports it again whatever is fed, unless what is
      fed completes the CR LF of a line that stands exactly at the limit. */
  lemma LineErrorSticks(limits: Limits, p: Parser, data: string)
    requires ParseNext(limits, p).status.Error? && !FailsAtBlankLine(limits, p)
    requires !AtLimit(limits, ParseNext(limits, p).p.Fed(data))
    ensures ParseNext(limits, ParseNext(limits, p).p.Fed(data)).status.Error?
  {
    var q := FailingAt(limits, p);
    FailedStepKeepsParser(limits, q);
    StepStable(limits, q, data);
  }

  lemma FailedStepKeepsParser(limits: Limits, q: Parser)
    requires Step(limits, q).Failed?
    ensures Step(limits, q).p ==
            if q.state.Headers? && FindCrlf(q.buffer) == Some(0) then q.(buffer := q.buffer[2..]) else q
    ensures q.state.Headers? && FindCrlf(q.buffer) == Some(0) ==> BodyLength(limits, q.inProgress.headers).None?
  {
    hide ParseRequestLine, ParseHeaderLine, BodyLength;
  }

  /** The buffer is one byte over the limit, that byte is a CR, and with its LF the line would be accepted. */
  predicate LacksOnlyItsLf(limits: Limits, q: Parser)
  {
    match q.state
    case RequestLine =>
      |q.buffer| == limits.maxRequestLineLength + 1 && q.buffer[|q.buffer| - 1] == '\r' && FindCrlf(q.buffer).None? &&
      ParseRequestLine(q.buffer[..limits.maxRequestLineLength]).Some?
    case Headers => limits.maxHeaderBytes == 0 && q.buffer == "\r" && BodyLength(limits, q.inProgress.headers).Some?
    case Body => false
  }

  /** Exactly when a parser that reported such an error can still be brought to yield a request. */
  lemma LineErrorRecovers(limits: Limits, p: Parser)
    requires ParseNext(limits, p).status.Error? && !FailsAtBlankLine(limits, p)
    ensures var q := ParseNext(limits, p).p;
            (exists data :: ParseNext(limits, q.Fed(data)).status.Parsed?) <==> LacksOnlyItsLf(limits, q)
  {
    var q := ParseNext(limits, p).p;
    FailedStepKeepsParser(limits, FailingAt(limits, p));
    hide Step;
    if LacksOnlyItsLf(limits, q) {
      var data := LfCompletes(limits, q);
    } else if data :| ParseNext(limits, q.Fed(data)).status.Parsed? {
      if AtLimit(limits, q.Fed(data)) {
        AtLimitLacksLf(limits, q, data);
      } else {
        LineErrorSticks(limits, p, data);
      }
    }
  }

  lemma AtLimitLacksLf(limits: Limits, q: Parser, data: string)
    requires Step(limits, q).Failed? && !(q.state.Headers? && FindCrlf(q.buffer) == Some(0))
    requires AtLimit(limits, q.Fed(data)) && !ParseNext(limits, q.Fed(data)).status.Error?
    ensures LacksOnlyItsLf(limits, q)
  {
    hide ParseRequestLine, ParseHeaderLine, BodyLength;
    var text := q.buffer + data;
    if FindCrlf(q.buffer).Some? {
      FindCrlfAppend(q.buffer, data);
      SplitAfter(q.buffer, FindCrlf(q.buffer).value, data);
    } else {
      LateCrlf(q.buffer, data);
      var n := FindCrlf(text).value;
      assert CrlfAt(text, n) && text[n] == q.buffer[n];
      assert text[..n] == q.buffer[..n];
    }
  }

  lemma LfCompletes(limits: Limits, q: Parser) returns (data: string)
    requires LacksOnlyItsLf(limits, q)
    ensures ParseNext(limits, q.Fed(data)).status.Parsed?
  {
    if q.state.RequestLine? {
      data := "\n" + "\r\n";
      LfEndsLine(limits, q, "\r\n");
      NoHeadersComplete(limits, Step(limits, q.Fed(data)).p, "");
    } else {
      var body := seq(BodyLength(limits, q.inProgress.headers).value, _ => 'x');
      data := "\n" + body;
      assert q.buffer + data == "\r\n" + body;
      NoHeadersComplete(limits, q.Fed(data), body);
    }
  }

  lemma LfEndsLine(limits: Limits, q: Parser, rest: string)
    requires LacksOnlyItsLf(limits, q) && q.state.RequestLine?
    ensures var r := Step(limits, q.Fed("\n" + rest));
            r.Continue? && r.p.state.Headers? && r.p.buffer == rest && r.p.inProgress.headers == map[]
  {
    var line := q.buffer[..limits.maxRequestLineLength];
    assert forall i | 0 <= i :: CrlfAt(line, i) ==> CrlfAt(q.buffer, i);
    assert q.buffer + ("\n" + rest) == line + "\r\n" + rest;
    FindCrlfLine(line, rest);
    var text := line + "\r\n" + rest;
    assert text[..|line|] == line && text[|line| + 2..] == rest;
  }

  lemma NoHeadersComplete(limits: Limits, r: Parser, body: string)
    requires r.state.Headers? && r.buffer == "\r\n" + body && BodyLength(limits, r.inProgress.headers) == Some(|body|)
    ensures ParseNext(limits, r).status.Parsed?
  {
    hide BodyLength, ParseHeaderLine;
    assert CrlfAt(r.buffer, 0) && r.buffer[2..] == body;
    var after := r.(buffer := body, bodyLength := |body|, state := Body);
    assert Step(limits, r) == Continue(after) && Step(limits, after).Complete?;
  }

  // ---------------------------------------------------------------------------------------------
  // Errors at the blank line
  // ---------------------------------------------------------------------------------------------

  const LENGTH := "content-length"
  const LENGTH_LINE := LENGTH + ":" + "0"

  /** The shortest header line that repairs a body length fits what is left of the header limits, and no
      transfer coding, which nothing can take back, has been announced. */
  predicate Repairable(limits: Limits, q: Parser)
  {
    && "transfer-encoding" !in q.inProgress.headers
    && q.headerBytes + |LENGTH_LINE| + 2 <= limits.maxHeaderBytes
    && q.headerCount < limits.maxHeaderCount
  }

  /** The parser that an error at the blank line leaves: in the headers, with a body length it cannot accept. */
  predicate LeftBroken(limits: Limits, q: Parser)
  {
    q.state.Headers? && BodyLength(limits, q.inProgress.headers).None?
  }

  lemma {:induction false} BlankLineLeavesBroken(limits: Limits, p: Parser)
    requires ParseNext(limits, p).status.Error? && FailsAtBlankLine(limits, p)
    ensures LeftBroken(limits, ParseNext(limits, p).p)
  {
    FailedStepKeepsParser(limits, FailingAt(limits, p));
    hide Step, BodyLength;
  }

  /** A header line too short to hold a length leaves the body length broken. */
  lemma ShortLineRepairsNothing(limits: Limits, line: string, headers: map<string, string>)
    requires |line| < |LENGTH_LINE| && ParseHeaderLine(line).Some? && BodyLength(limits, headers).None?
    ensures var (name, value) := ParseHeaderLine(line).value; BodyLength(limits, headers[name := value]).None?
  {
    hide TrimOws, ToLower, FindChar;
    var colon := FindChar(line, ':', 0).value;
    var (name, value) := ParseHeaderLine(line).value;
    TrimShortens(line[..colon]);
    TrimShortens("");
    if name == LENGTH {
      assert |name| == 14 && line[colon + 1..] == "";
    }
  }

  lemma TrimShortens(s: string)
    ensures |TrimOws(s)| <= |s|
  {
    LeftShortens(s);
    RightShortens(TrimLeft(s));
  }

  lemma {:induction false} LeftShortens(s: string)
    ensures |TrimLeft(s)| <= |s|
  {
    if s != "" {
      LeftShortens(s[1..]);
    }
  }

  lemma {:induction false} RightShortens(s: string)
    ensures |TrimRight(s)| <= |s|
  {
    if s != "" {
      RightShortens(s[..|s| - 1]);
    }
  }

  /** What cannot be repaired never yields a request. */
  lemma {:induction false} NeverRepaired(limits: Limits, q: Parser)
    requires LeftBroken(limits, q) && !Repairable(limits, q)
    ensures !ParseNext(limits, q).status.Parsed?
    decreases Fuel(q)
  {
    var step := Step(limits, q);
    if step.Continue? {
      StaysBroken(limits, q);
      StepShrinks(limits, q);
      hide Step, LeftBroken, Repairable;
      NeverRepaired(limits, step.p);
    }
  }

  lemma StaysBroken(limits: Limits, q: Parser)
    requires LeftBroken(limits, q) && !Repairable(limits, q) && Step(limits, q).Continue?
    ensures LeftBroken(limits, Step(limits, q).p) && !Repairable(limits, Step(limits, q).p)
  {
    hide ParseHeaderLine, BodyLength;
    var line := q.buffer[..FindCrlf(q.buffer).value];
    if "transfer-encoding" in q.inProgress.headers {
      CodingStays(limits, q.inProgress.headers, ParseHeaderLine(line).value.0, ParseHeaderLine(line).value.1);
    } else {
      ShortLineRepairsNothing(limits, line, q.inProgress.headers);
    }
  }

  lemma CodingStays(limits: Limits, headers: map<string, string>, name: string, value: string)
    requires "transfer-encoding" in headers
    ensures BodyLength(limits, headers[name := value]).None?
  {
  }

  lemma LengthIsTidy()
    ensures Tidy(LENGTH) && Lower(LENGTH) && forall i | 0 <= i < |LENGTH| :: LENGTH[i] != ':'
  {
  }

  lemma LengthHeaderIsFine(value: string)
    requires Tidy(value)
    ensures WellFormedHeader((LENGTH, value)) && ToLower(LENGTH) == LENGTH
  {
    LengthIsTidy();
    hide WellFormedHeader, ToLower, Tidy;
    LowerKept(LENGTH);
    TidyHeader((LENGTH, value));
  }

  lemma UnpaddedLineParses(name: string, value: string)
    requires WellFormedHeader((name, value))
    ensures ParseHeaderLine(name + ":" + value) == Some((ToLower(name), value))
  {
    hide ToLower, TrimOws, FindCrlf;
    var line := name + ":" + value;
    FindCharAt(line, ':', 0, |name|);
    assert line[..|name|] == name && line[|name| + 1..] == value;
  }

  lemma LengthLineParses()
    ensures ParseHeaderLine(LENGTH_LINE) == Some((LENGTH, "0")) && FindCrlf(LENGTH_LINE).None?
  {
    LengthHeaderIsFine("0");
    hide ParseHeaderLine, WellFormedHeader, ToLower, FindCrlf;
    UnpaddedLineParses(LENGTH, "0");
    LengthLineIsOneLine();
  }

  lemma LengthLineIsOneLine()
    ensures FindCrlf(LENGTH_LINE).None?
  {
    LengthIsTidy();
    assert forall i | 0 <= i < |LENGTH_LINE| :: LENGTH_LINE[i] != '\r';
    assert forall i :: !CrlfAt(LENGTH_LINE, i);
  }

  lemma ZeroIsRead()
    ensures ParseU64("0") == Some(0)
  {
    ParseToText(0);
    assert ToText(0) == "0";
  }

  lemma RepairSteps(limits: Limits, q: Parser)
    requires q.state.Headers? && q.buffer == LENGTH_LINE + "\r\n" + "\r\n" && Repairable(limits, q)
    ensures Step(limits, q) ==
            Continue(q.(buffer := "\r\n", inProgress := q.inProgress.(headers := q.inProgress.headers["content-length" := "0"]),
                        headerBytes := q.headerBytes + |LENGTH_LINE| + 2, headerCount := q.headerCount + 1))
  {
    hide ParseHeaderLine;
    LengthLineParses();
    FindCrlfLine(LENGTH_LINE, "\r\n");
    assert q.buffer[..|LENGTH_LINE|] == LENGTH_LINE && q.buffer[|LENGTH_LINE| + 2..] == "\r\n";
  }

  lemma Repaired(limits: Limits, q: Parser)
    requires q.state.Headers? && q.buffer == LENGTH_LINE + "\r\n" + "\r\n" && Repairable(limits, q)
    ensures ParseNext(limits, q).status.Parsed?
  {
    RepairSteps(limits, q);
    var r := Step(limits, q).p;
    ZeroIsRead();
    assert BodyLength(limits, r.inProgress.headers) == Some(0);
    hide Step, BodyLength;
    NoHeadersComplete(limits, r, "");
  }

  /** An error at the blank line is final or not: kept in use, the parser can still be brought to yield a
      request if and only if no transfer coding is announced and a length line fits the header limits. Bytes
      that were already behind the blank line can only make it worse. */
  lemma BlankLineErrorRecovers(limits: Limits, p: Parser)
    requires ParseNext(limits, p).status.Error? && FailsAtBlankLine(limits, p)
    ensures var q := ParseNext(limits, p).p;
            && (!Repairable(limits, q) ==> forall data :: !ParseNext(limits, q.Fed(data)).status.Parsed?)
            && (q.buffer == "" ==>
                  ((exists data :: ParseNext(limits, q.Fed(data)).status.Parsed?) <==> Repairable(limits, q)))
  {
    BlankLineLeavesBroken(limits, p);
    var q := ParseNext(limits, p).p;
    hide ParseNext, BodyLength;
    if Repairable(limits, q) {
      if q.buffer == "" {
        var data := LENGTH_LINE + "\r\n" + "\r\n";
        assert q.Fed(data).buffer == data;
        Repaired(limits, q.Fed(data));
      }
    } else {
      forall data ensures !ParseNext(limits, q.Fed(data)).status.Parsed? {
        NeverRepaired(limits, q.Fed(data));
      }
    }
  }

  // ---------------------------------------------------------------------------------------------
  // A stream that shows it
  // ---------------------------------------------------------------------------------------------

  const BROKEN_STREAM := "GET / HTTP/1.1" + "\r\n" + ("content-length: x" + "\r\n" + "\r\n")

  /** Fed to a new parser, this stream is an error; fed a length and a blank line on top, the parser that
      reported it delivers a request. */
  lemma ErrorIsNotSticky()
    ensures var first := ParseNext(DEFAULT_LIMITS, Fresh(BROKEN_STREAM));
            && first.status.Error?
            && ParseNext(DEFAULT_LIMITS, first.p.Fed(LENGTH_LINE + "\r\n" + "\r\n")).status.Parsed?
  {
    var p := BrokenStreamLeaves();
    hide Step, ParseNext, BROKEN_STREAM;
    var data := LENGTH_LINE + "\r\n" + "\r\n";
    assert p.Fed(data).buffer == data;
    Repaired(DEFAULT_LIMITS, p.Fed(data));
  }

  lemma BrokenStreamLeaves() returns (q: Parser)
    ensures ParseNext(DEFAULT_LIMITS, Fresh(BROKEN_STREAM)) == NextResult(Error, q)
    ensures q.state.Headers? && q.buffer == "" && Repairable(DEFAULT_LIMITS, q)
  {
    var w := WireRequest("GET", "/", "/", "", "HTTP/1.1", [(LENGTH, "x")], "");
    BrokenLineIsFine(w);
    LengthHeaderIsFine("x");
    BrokenHeaderText();
    hide RequestLineOf, HeaderLineOf, WellFormedLine, WellFormedHeader, ToLower, ParseNext, Repairable;
    q := BrokenRequestLeaves(w, (LENGTH, "x"));
  }

  lemma BrokenHeaderText()
    ensures HeaderLineOf((LENGTH, "x")) == "content-length: x"
  {
  }

  lemma BrokenRequestLeaves(w: WireRequest, h: (string, string)) returns (q: Parser)
    requires WellFormedLine(w) && |RequestLineOf(w)| == 14 && h == (LENGTH, "x") && WellFormedHeader(h) && ToLower(h.0) == h.0
    ensures var stream := RequestLineOf(w) + "\r\n" + (HeaderLineOf(h) + "\r\n" + "\r\n");
            ParseNext(DEFAULT_LIMITS, Fresh(stream)) == NextResult(Error, q)
    ensures q.state.Headers? && q.buffer == "" && Repairable(DEFAULT_LIMITS, q)
  {
    hide WellFormedLine, WellFormedHeader, RequestLineOf, RequestLineStep, HeadersStep, BodyLength, ToLower;
    var headers := HeaderLineOf(h) + "\r\n" + "\r\n";
    RequestLineRoundTrip(DEFAULT_LIMITS, w, headers);
    var request := HttpRequest(w.verb, w.path, w.query, w.version, map[], "");
    assert |HeaderLineOf(h)| == 17;
    HeaderStep(DEFAULT_LIMITS, h, "\r\n", request, 0, 0);
    q := BrokenLength(DEFAULT_LIMITS, request.(headers := map[ToLower(h.0) := h.1]), |HeaderLineOf(h)| + 2, 1);
  }

  lemma RootDecodes(path: string)
    requires path == "/"
    ensures PercentDecode(path) == Some(path)
  {
    assert path[0] == '/' && path[1..] == "";
    assert PercentDecode("") == Some("");
    assert PercentDecode(path) == Prepend(path[0], PercentDecode(path[1..]));
    assert [path[0]] + "" == path;
  }

  lemma BrokenLineIsFine(w: WireRequest)
    requires w.verb == "GET" && w.rawPath == "/" && w.path == "/" && w.query == "" && w.version == "HTTP/1.1"
    ensures WellFormedLine(w) && RequestLineOf(w) == "GET / HTTP/1.1"
  {
    assert RequestLineOf(w) == "GET / HTTP/1.1";
    RootDecodes(w.rawPath);
    assert w.version[..5] == "HTTP/";
  }

  lemma BrokenLength(limits: Limits, request: HttpRequest, size: nat, count: nat) returns (q: Parser)
    requires request.headers == map["content-length" := "x"]
    ensures q == InHeaders("", request, size, count)
    ensures ParseNext(limits, InHeaders("\r\n", request, size, count)) == NextResult(Error, q)
  {
    var p := InHeaders("\r\n", request, size, count);
    assert CrlfAt(p.buffer, 0) && !IsDigit("x"[0]);
    assert p.buffer[2..] == "";
    q := p.(buffer := "");
  }
}
