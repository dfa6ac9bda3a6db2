/** The incremental request parser: `feed` appends bytes, `next` runs the state machine
    RequestLine -> Headers -> Body. The class is proved equal to the functions `Step` and `ParseNext`
    over its fields; every property is stated about those functions. */
module HttpParser {
  import opened Common
  import opened Decimal
  import opened HttpText

  datatype Limits = Limits(
    maxRequestLineLength: nat, maxHeaderBytes: nat, maxHeaderCount: nat, maxBodySize: nat)

  const DEFAULT_LIMITS := Limits(8 * 1024, 16 * 1024, 100, 10 * 1024 * 1024)

  datatype State = RequestLine | Headers | Body

  /** The fields of a parser between calls. */
  datatype Parser = Parser(
    buffer: string, state: State, inProgress: HttpRequest,
    headerBytes: nat, headerCount: nat, bodyLength: nat)
  {
    function Fed(data: string): Parser { this.(buffer := buffer + data) }
  }

  function Fresh(buffer: string): Parser
  {
    Parser(buffer, RequestLine, EmptyRequest, 0, 0, 0)
  }

  /** What one turn of the `for (;;)` in `next` does. `Failed` keeps the fields as the source leaves them. */
  datatype StepResult =
    | NeedMore
    | Failed(p: Parser)
    | Complete(request: HttpRequest, p: Parser)
    | Continue(p: Parser)

  /** Body length announced by the headers; `None` is the 400 of `finishHeaders`. */
  function BodyLength(limits: Limits, headers: map<string, string>): Option<nat>
  {
    if "transfer-encoding" in headers then None
    else if "content-length" !in headers then Some(0)
    else
      var length := ParseU64(headers["content-length"]);
      if length.None? || length.value > limits.maxBodySize then None else length
  }

  function Step(limits: Limits, p: Parser): StepResult
  {
    match p.state
    case RequestLine => RequestLineStep(limits, p)
    case Headers => HeadersStep(limits, p)
    case Body =>
      if |p.buffer| < p.bodyLength then NeedMore
      else Complete(p.inProgress.(body := p.buffer[..p.bodyLength]), Fresh(p.buffer[p.bodyLength..]))
  }

  function RequestLineStep(limits: Limits, p: Parser): StepResult
  {
    var pos := FindCrlf(p.buffer);
    if pos.None? then
      if |p.buffer| > limits.maxRequestLineLength then Failed(p) else NeedMore
    else if pos.value > limits.maxRequestLineLength then Failed(p)
    else
      var request := ParseRequestLine(p.buffer[..pos.value]);
      if request.None? then Failed(p)
      else Continue(Parser(p.buffer[pos.value + 2..], Headers, request.value, 0, 0, p.bodyLength))
  }

  function HeadersStep(limits: Limits, p: Parser): StepResult
  {
    var pos := FindCrlf(p.buffer);
    if pos.None? then
      if |p.buffer| > limits.maxHeaderBytes then Failed(p) else NeedMore
    else if pos.value == 0 then
      var rest := p.(buffer := p.buffer[2..]);
      var length := BodyLength(limits, p.inProgress.headers);
      if length.None? then Failed(rest) else Continue(rest.(bodyLength := length.value, state := Body))
    else if p.headerBytes + pos.value + 2 > limits.maxHeaderBytes then Failed(p)
    else if p.headerCount + 1 > limits.maxHeaderCount then Failed(p)
    else
      var header := ParseHeaderLine(p.buffer[..pos.value]);
      if header.None? then Failed(p)
      else
        var (name, value) := header.value;
        Continue(p.(buffer := p.buffer[pos.value + 2..],
                    inProgress := p.inProgress.(headers := p.inProgress.headers[name := value]),
                    headerBytes := p.headerBytes + pos.value + 2,
                    headerCount := p.headerCount + 1))
  }

  /** Bytes left to look at, counted so that every turn that does not return lowers it. */
  function Fuel(p: Parser): nat
  {
    2 * |p.buffer| + if p.state.Body? then 1 else 0
  }

  datatype ParseResult = NeedMoreData | Parsed(request: HttpRequest) | Error

  datatype NextResult = NextResult(status: ParseResult, p: Parser)

  /** `next()`: turns until one of them returns. */
  function ParseNext(limits: Limits, p: Parser): NextResult
    decreases Fuel(p)
  {
    match Step(limits, p)
    case NeedMore => NextResult(NeedMoreData, p)
    case Failed(q) => NextResult(Error, q)
    case Complete(request, q) => NextResult(Parsed(request), q)
    case Continue(q) => ParseNext(limits, q)
  }

  /** A turn that goes on, and a request taken out, both shorten what is left. */
  lemma StepShrinks(limits: Limits, p: Parser)
    ensures var step := Step(limits, p);
            step.Continue? || step.Complete? ==> |step.p.buffer| <= |p.buffer| && Fuel(step.p) < Fuel(p)
  {
  }

  class HttpRequestParser {
    const limits: Limits
    var buffer: string
    var state: State
    var inProgress: HttpRequest
    var headerBytesConsumed: nat
    var headerCount: nat
    var bodyLength: nat

    ghost function View(): Parser
      reads this
    {
      Parser(buffer, state, inProgress, headerBytesConsumed, headerCount, bodyLength)
    }

    constructor (limits: Limits)
      ensures this.limits == limits && View() == Fresh("")
    {
      this.limits := limits;
      buffer, state, inProgress := "", RequestLine, EmptyRequest;
      headerBytesConsumed, headerCount, bodyLength := 0, 0, 0;
    }

    method Feed(data: string)
      modifies this
      ensures View() == old(View()).Fed(data)
    {
      if data != "" {
        buffer := buffer + data;
      } else {
        assert buffer + data == buffer;
      }
    }

    /** The checks on one request line, in the source's order. */
    method AcceptRequestLine(line: string) returns (r: Option<HttpRequest>)
      ensures r == ParseRequestLine(line)
    {
      hide PercentDecode, VersionWellFormed;
      var firstSpace := FindChar(line, ' ', 0);
      if firstSpace.None? { return None; }
      var secondSpace := FindChar(line, ' ', firstSpace.value + 1);
      if secondSpace.None? { return None; }
      if FindChar(line, ' ', secondSpace.value + 1).Some? { return None; }
      var verb := line[..firstSpace.value];
      var target := line[firstSpace.value + 1..secondSpace.value];
      var version := line[secondSpace.value + 1..];
      if verb == "" || target == "" || target[0] != '/' { return None; }
      if !VersionWellFormed(version) { return None; }
      var queryPos := FindChar(target, '?', 0);
      var rawPath := if queryPos.None? then target else target[..queryPos.value];
      var rawQuery := if queryPos.None? then "" else target[queryPos.value + 1..];
      var decodedPath := PercentDecodeLoop(rawPath);
      if decodedPath.None? { return None; }
      return Some(HttpRequest(verb, decodedPath.value, rawQuery, version, map[], ""));
    }

    method FinishHeaders() returns (ok: bool)
      modifies this
      ensures var length := BodyLength(limits, old(inProgress.headers));
              ok == length.Some? &&
              View() == if ok then old(View()).(bodyLength := length.value, state := Body) else old(View())
    {
      if "transfer-encoding" in inProgress.headers { return false; }
      if "content-length" !in inProgress.headers {
        bodyLength := 0;
        state := Body;
        return true;
      }
      var length := ParseU64(inProgress.headers["content-length"]);
      if length.None? { return false; }
      if length.value > limits.maxBodySize { return false; }
      bodyLength := length.value;
      state := Body;
      return true;
    }

    /** How a turn of the loop relates to `Step`: `r` is what `next` returns, `None` goes round again. */
    ghost predicate TurnOf(step: StepResult, before: Parser, r: Option<ParseResult>)
      reads this
    {
      match step
      case NeedMore => r == Some(NeedMoreData) && View() == before
      case Failed(q) => r == Some(Error) && View() == q
      case Complete(request, q) => r == Some(Parsed(request)) && View() == q
      case Continue(q) => r.None? && View() == q
    }

    method RequestLineTurn() returns (r: Option<ParseResult>)
      requires state.RequestLine?
      modifies this
      ensures TurnOf(Step(limits, old(View())), old(View()), r)
    {
      hide ParseRequestLine;
      var pos := FindCrlf(buffer);
      if pos.None? {
        return Some(if |buffer| > limits.maxRequestLineLength then Error else NeedMoreData);
      }
      if pos.value > limits.maxRequestLineLength { return Some(Error); }
      var request := AcceptRequestLine(buffer[..pos.value]);
      if request.None? { return Some(Error); }
      inProgress := request.value;
      buffer := buffer[pos.value + 2..];
      headerBytesConsumed, headerCount := 0, 0;
      state := Headers;
      return None;
    }

    method HeadersTurn() returns (r: Option<ParseResult>)
      requires state.Headers?
      modifies this
      ensures TurnOf(Step(limits, old(View())), old(View()), r)
    {
      hide TrimOws, ToLower, BodyLength;
      var pos := FindCrlf(buffer);
      if pos.None? {
        return Some(if |buffer| > limits.maxHeaderBytes then Error else NeedMoreData);
      }
      if pos.value == 0 {
        buffer := buffer[2..];
        var ok := FinishHeaders();
        return if ok then None else Some(Error);
      }
      if headerBytesConsumed + pos.value + 2 > limits.maxHeaderBytes { return Some(Error); }
      if headerCount + 1 > limits.maxHeaderCount { return Some(Error); }
      var line := buffer[..pos.value];
      var colon := FindChar(line, ':', 0);
      if colon.None? { return Some(Error); }
      var name := TrimOwsLoop(line[..colon.value]);
      var value := TrimOwsLoop(line[colon.value + 1..]);
      if name == "" { return Some(Error); }
      var key := ToLowerCopy(name);
      inProgress := inProgress.(headers := inProgress.headers[key := value]);
      headerBytesConsumed := headerBytesConsumed + pos.value + 2;
      headerCount := headerCount + 1;
      buffer := buffer[pos.value + 2..];
      return None;
    }

    method BodyTurn() returns (r: Option<ParseResult>)
      requires state.Body?
      modifies this
      ensures TurnOf(Step(limits, old(View())), old(View()), r)
    {
      if |buffer| < bodyLength { return Some(NeedMoreData); }
      var request := inProgress.(body := buffer[..bodyLength]);
      buffer := buffer[bodyLength..];
      ResetForNextRequest();
      return Some(Parsed(request));
    }

    method Next() returns (result: ParseResult)
      modifies this
      ensures NextResult(result, View()) == ParseNext(limits, old(View()))
    {
      while true
        invariant ParseNext(limits, old(View())) == ParseNext(limits, View())
        decreases Fuel(View())
      {
        hide RequestLineStep, HeadersStep;
        ghost var before := View();
        StepShrinks(limits, before);
        var r: Option<ParseResult>;
        match state {
          case RequestLine => r := RequestLineTurn();
          case Headers => r := HeadersTurn();
          case Body => r := BodyTurn();
        }
        if r.Some? { return r.value; }
        assert Step(limits, before) == Continue(View()) && Fuel(View()) < Fuel(before);
      }
    }

    method ResetForNextRequest()
      modifies this
      ensures View() == Fresh(old(buffer))
    {
      state, inProgress := RequestLine, EmptyRequest;
      headerBytesConsumed, headerCount, bodyLength := 0, 0, 0;
    }
  }
}
