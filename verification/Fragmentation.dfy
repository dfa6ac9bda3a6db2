/** Fragmentation independence of the request parser: how a byte stream is cut into `feed` calls
    never changes the requests it yields, with one exception that is characterised exactly. */
module Fragmentation {
  import opened Common
  import opened HttpText
  import opened HttpParser

  /** What is left after draining: a parser waiting for bytes, or a connection given up. */
  datatype Outcome = Dead | Live(p: Parser)

  datatype Drained = Drained(requests: seq<HttpRequest>, outcome: Outcome)

  const REJECTED := Drained([], Dead)

  /** The documented use: call `next` until it wants more bytes or reports an error. */
  function Drain(limits: Limits, p: Parser): Drained
    decreases Fuel(p)
  {
    NextShrinks(limits, p);
    var r := ParseNext(limits, p);
    match r.status
    case NeedMoreData => Drained([], Live(r.p))
    case Error => REJECTED
    case Parsed(request) => Before([request], Drain(limits, r.p))
  }

  function Before(requests: seq<HttpRequest>, rest: Drained): Drained
  {
    Drained(requests + rest.requests, rest.outcome)
  }

  /** Feed each piece and drain after each; an error ends the stream. */
  function DrainPieces(limits: Limits, p: Parser, pieces: seq<string>): Drained
    decreases |pieces|
  {
    if pieces == [] then Drained([], Live(p))
    else
      var d := Drain(limits, p.Fed(pieces[0]));
      if d.outcome.Dead? then d else Before(d.requests, DrainPieces(limits, d.outcome.p, pieces[1..]))
  }

  lemma {:induction false} NextShrinks(limits: Limits, p: Parser)
    ensures ParseNext(limits, p).status.Parsed? ==> Fuel(ParseNext(limits, p).p) < Fuel(p)
    decreases Fuel(p)
  {
    match Step(limits, p)
    case Continue(q) => NextShrinks(limits, q);
    case _ =>
  }

  /** The line whose CR LF stands exactly at the limit: `find` accepts it when CR and LF are both
      there, but one byte earlier the buffer is already over the limit. With a header limit of zero
      the blank line has the same fate. */
  predicate AtLimit(limits: Limits, p: Parser)
  {
    || (p.state.RequestLine? && FindCrlf(p.buffer) == Some(limits.maxRequestLineLength))
    || (p.state.Headers? && limits.maxHeaderBytes == 0 && FindCrlf(p.buffer) == Some(0))
  }

  /** Draining `p` whole passes a line at the limit and goes on to yield a request or a live parser. */
  predicate PassesLimit(limits: Limits, p: Parser)
    decreases Fuel(p)
  {
    var step := Step(limits, p);
    || (AtLimit(limits, p) && step.Continue? && Drain(limits, p) != REJECTED)
    || ((step.Continue? || step.Complete?) && PassesLimit(limits, step.p))
  }

  /** The step `after` on the longer buffer, against the step `before` on the shorter one. */
  predicate SameStep(before: StepResult, after: StepResult, data: string)
  {
    match before
    case Continue(q) => after == Continue(q.Fed(data))
    case Complete(request, q) => after == Complete(request, q.Fed(data))
    case Failed(_) => after.Failed?
    case NeedMore => true
  }

  lemma SplitAfter(buffer: string, n: nat, data: string)
    requires n <= |buffer|
    ensures (buffer + data)[..n] == buffer[..n] && (buffer + data)[n..] == buffer[n..] + data
  {
  }

  /** Without a CR LF in the buffer, one that shows up later ends past what was there. */
  lemma LateCrlf(buffer: string, data: string)
    requires FindCrlf(buffer).None? && FindCrlf(buffer + data).Some?
    ensures FindCrlf(buffer + data).value + 1 >= |buffer|
  {
    var pos := FindCrlf(buffer + data).value;
    assert pos + 1 < |buffer| ==> CrlfAt(buffer, pos);
  }

  lemma RequestLineStable(limits: Limits, p: Parser, data: string)
    ensures || SameStep(RequestLineStep(limits, p), RequestLineStep(limits, p.Fed(data)), data)
            || (FindCrlf(p.buffer).None? && FindCrlf(p.buffer + data) == Some(limits.maxRequestLineLength))
  {
    hide ParseRequestLine, ParseHeaderLine, BodyLength;
    if FindCrlf(p.buffer).Some? {
      FindCrlfAppend(p.buffer, data);
      SplitAfter(p.buffer, FindCrlf(p.buffer).value, data);
      SplitAfter(p.buffer, FindCrlf(p.buffer).value + 2, data);
    } else if FindCrlf(p.buffer + data).Some? {
      LateCrlf(p.buffer, data);
    }
  }

  lemma HeadersStable(limits: Limits, p: Parser, data: string)
    ensures || SameStep(HeadersStep(limits, p), HeadersStep(limits, p.Fed(data)), data)
            || (limits.maxHeaderBytes == 0 && FindCrlf(p.buffer).None? && FindCrlf(p.buffer + data) == Some(0))
  {
    hide ParseRequestLine, ParseHeaderLine, BodyLength;
    if FindCrlf(p.buffer).Some? {
      FindCrlfAppend(p.buffer, data);
      SplitAfter(p.buffer, FindCrlf(p.buffer).value, data);
      SplitAfter(p.buffer, FindCrlf(p.buffer).value + 2, data);
    } else if FindCrlf(p.buffer + data).Some? {
      LateCrlf(p.buffer, data);
    }
  }

  /** Every parser step that consumes bytes is the same with more bytes behind, and a failed step
      stays failed except at the limit. */
  lemma StepStable(limits: Limits, p: Parser, data: string)
    ensures || SameStep(Step(limits, p), Step(limits, p.Fed(data)), data)
            || (Step(limits, p).Failed? && AtLimit(limits, p.Fed(data)) &&
                (Step(limits, p.Fed(data)).Failed? || Step(limits, p.Fed(data)).Continue?))
  {
    match p.state
    case RequestLine => RequestLineStable(limits, p, data);
    case Headers => HeadersStable(limits, p, data);
    case Body =>
      if |p.buffer| >= p.bodyLength {
        SplitAfter(p.buffer, p.bodyLength, data);
      }
  }

  /** The converse cut: a step needs no byte beyond those it consumes. */
  lemma StepPrefix(limits: Limits, p: Parser, k: nat)
    requires Step(limits, p).Continue? || Step(limits, p).Complete?
    requires |p.buffer| - |Step(limits, p).p.buffer| <= k <= |p.buffer|
    ensures var cut := p.(buffer := p.buffer[..k]);
            && (Step(limits, cut).Continue? || Step(limits, cut).Complete?)
            && SameStep(Step(limits, cut), Step(limits, p), p.buffer[k..])
  {
    hide ParseRequestLine, ParseHeaderLine, BodyLength;
    var cut := p.(buffer := p.buffer[..k]);
    assert cut.Fed(p.buffer[k..]) == p;
    if !p.state.Body? {
      PrefixGoesOn(limits, p, k);
    }
    StepStable(limits, cut, p.buffer[k..]);
  }

  lemma PrefixGoesOn(limits: Limits, p: Parser, k: nat)
    requires !p.state.Body? && Step(limits, p).Continue?
    requires |p.buffer| - |Step(limits, p).p.buffer| <= k <= |p.buffer|
    ensures Step(limits, p.(buffer := p.buffer[..k])).Continue?
  {
    hide ParseRequestLine, ParseHeaderLine, BodyLength;
    var pos := FindCrlf(p.buffer).value;
    FindCrlfPrefix(p.buffer, k);
    assert p.buffer[..k][..pos] == p.buffer[..pos];
  }

  /** Bytes arriving after `next` wanted more act as if they had been there from the start. */
  lemma {:induction false} NextStable(limits: Limits, p: Parser, data: string)
    ensures var before := ParseNext(limits, p);
            var after := ParseNext(limits, p.Fed(data));
            && (before.status.NeedMoreData? ==> after == ParseNext(limits, before.p.Fed(data)))
            && (before.status.Parsed? ==> after == NextResult(before.status, before.p.Fed(data)))
    decreases Fuel(p)
  {
    StepStable(limits, p, data);
    match Step(limits, p)
    case Continue(q) => NextStable(limits, q, data);
    case _ =>
  }

  /** `Drain`, one parser step at a time. */
  lemma DrainStep(limits: Limits, p: Parser)
    ensures var step := Step(limits, p);
            Drain(limits, p) ==
            if step.NeedMore? then Drained([], Live(p))
            else if step.Failed? then REJECTED
            else if step.Complete? then Before([step.request], Drain(limits, step.p))
            else Drain(limits, step.p)
  {
  }

  /** A parser that was drained to the end has nothing more to give. */
  lemma {:induction false} DrainQuiescent(limits: Limits, p: Parser)
    requires Drain(limits, p).outcome.Live?
    ensures Drain(limits, Drain(limits, p).outcome.p) == Drained([], Drain(limits, p).outcome)
    decreases Fuel(p)
  {
    DrainStep(limits, p);
    match Step(limits, p)
    case Complete(_, q) => DrainQuiescent(limits, q);
    case Continue(q) => DrainQuiescent(limits, q);
    case _ =>
  }

  /** Draining before more bytes arrive, then after, is draining once at the end. */
  lemma {:induction false} DrainSplit(limits: Limits, p: Parser, data: string)
    requires !PassesLimit(limits, p.Fed(data))
    ensures var first := Drain(limits, p);
            && Drain(limits, p.Fed(data)) ==
               (if first.outcome.Dead? then first
                else Before(first.requests, Drain(limits, first.outcome.p.Fed(data))))
            && (first.outcome.Live? ==> !PassesLimit(limits, first.outcome.p.Fed(data)))
    decreases Fuel(p)
  {
    StepStable(limits, p, data);
    hide Step, Drain;
    DrainStep(limits, p);
    DrainStep(limits, p.Fed(data));
    StepShrinks(limits, p);
    match Step(limits, p)
    case Complete(_, q) => DrainSplit(limits, q, data);
    case Continue(q) => DrainSplit(limits, q, data);
    case _ =>
  }

  lemma CutLineFails(limits: Limits, p: Parser)
    requires AtLimit(limits, p)
    ensures Step(limits, p.(buffer := p.buffer[..FindCrlf(p.buffer).value + 1])).Failed?
  {
    var cut := p.buffer[..FindCrlf(p.buffer).value + 1];
    assert forall i | 0 <= i < |cut| :: CrlfAt(cut, i) ==> CrlfAt(p.buffer, i);
  }

  /** The exception is real: cut just after the CR of the line at the limit. */
  lemma {:induction false} CutAtLimit(limits: Limits, p: Parser) returns (k: nat)
    requires PassesLimit(limits, p)
    ensures k <= |p.buffer|
    ensures var cut := Drain(limits, p.(buffer := p.buffer[..k]));
            cut.outcome.Dead? && cut != Drain(limits, p)
    decreases Fuel(p)
  {
    hide Step, Drain;
    DrainStep(limits, p);
    if AtLimit(limits, p) && Step(limits, p).Continue? && Drain(limits, p) != REJECTED {
      k := FindCrlf(p.buffer).value + 1;
      CutLineFails(limits, p);
      DrainStep(limits, p.(buffer := p.buffer[..k]));
    } else {
      StepShrinks(limits, p);
      var step := Step(limits, p);
      var rest := CutAtLimit(limits, step.p);
      k := |p.buffer| - |step.p.buffer| + rest;
      var cut := p.(buffer := p.buffer[..k]);
      StepPrefix(limits, p, k);
      DrainStep(limits, cut);
      assert cut.Fed(p.buffer[k..]) == p;
      assert Step(limits, cut).p == step.p.(buffer := step.p.buffer[..rest]);
      assert step.Complete? ==> forall d: Drained :: Before([step.request], d).requests[1..] == d.requests;
    }
  }

  /** From a parser that waits for bytes, any cutting of the coming bytes gives what feeding them whole gives. */
  lemma {:induction false} PiecesIndependent(limits: Limits, p: Parser, pieces: seq<string>)
    requires Drain(limits, p) == Drained([], Live(p))
    requires !PassesLimit(limits, p.Fed(Concat(pieces)))
    ensures DrainPieces(limits, p, pieces) == Drain(limits, p.Fed(Concat(pieces)))
    decreases |pieces|
  {
    if pieces == [] {
      assert p.Fed("") == p;
    } else {
      var rest := Concat(pieces[1..]);
      assert p.Fed(pieces[0]).Fed(rest) == p.Fed(Concat(pieces)) by {
        assert p.buffer + pieces[0] + rest == p.buffer + Concat(pieces);
      }
      var first := Drain(limits, p.Fed(pieces[0]));
      DrainSplit(limits, p.Fed(pieces[0]), rest);
      if first.outcome.Live? {
        DrainQuiescent(limits, p.Fed(pieces[0]));
        PiecesIndependent(limits, first.outcome.p, pieces[1..]);
      }
    }
  }

  /** The stream is cut-independent: every way to cut it gives the requests and the final outcome of feeding it whole. */
  ghost predicate CutIndependent(limits: Limits, stream: string)
  {
    forall pieces | Concat(pieces) == stream :: DrainPieces(limits, Fresh(""), pieces) == Drain(limits, Fresh(stream))
  }

  lemma CutsDiffer(limits: Limits, stream: string) returns (pieces: seq<string>)
    requires PassesLimit(limits, Fresh(stream))
    ensures Concat(pieces) == stream
    ensures DrainPieces(limits, Fresh(""), pieces) != Drain(limits, Fresh(stream))
  {
    hide Drain, PassesLimit;
    var k := CutAtLimit(limits, Fresh(stream));
    pieces := [stream[..k], stream[k..]];
    ConcatTwo(stream[..k], stream[k..]);
    assert pieces[1..] == [stream[k..]];
    assert Fresh("").Fed(stream[..k]) == Fresh(stream).(buffer := stream[..k]);
  }

  /** Fragmentation independence with its exact condition, for every stream and all limits. */
  lemma FragmentationIndependence(limits: Limits, stream: string)
    ensures CutIndependent(limits, stream) <==> !PassesLimit(limits, Fresh(stream))
  {
    hide DrainPieces, PassesLimit;
    if PassesLimit(limits, Fresh(stream)) {
      var pieces := CutsDiffer(limits, stream);
    } else {
      assert Fresh("").Fed(stream) == Fresh(stream);
      forall pieces | Concat(pieces) == stream
        ensures DrainPieces(limits, Fresh(""), pieces) == Drain(limits, Fresh(stream))
      {
        PiecesIndependent(limits, Fresh(""), pieces);
      }
    }
  }

  /** From no position of the text is the first CR LF found exactly at the request-line limit. */
  ghost predicate NoLineAtLimit(limits: Limits, text: string)
  {
    forall from | 0 <= from <= |text| :: FindCrlf(text[from..]) != Some(limits.maxRequestLineLength)
  }

  /** A condition on the bytes alone that rules the exception out. */
  lemma {:induction false} NeverPassesLimit(limits: Limits, p: Parser)
    requires limits.maxHeaderBytes > 0 && NoLineAtLimit(limits, p.buffer)
    ensures !PassesLimit(limits, p)
    decreases Fuel(p)
  {
    assert p.buffer[0..] == p.buffer;
    var step := Step(limits, p);
    if step.Continue? || step.Complete? {
      StepShrinks(limits, p);
      StepTakesPrefix(limits, p);
      hide Step, Drain;
      var k := |p.buffer| - |step.p.buffer|;
      forall from | 0 <= from <= |step.p.buffer|
        ensures FindCrlf(step.p.buffer[from..]) != Some(limits.maxRequestLineLength)
      {
        assert step.p.buffer[from..] == p.buffer[k + from..];
      }
      NeverPassesLimit(limits, step.p);
    }
  }

  lemma StepTakesPrefix(limits: Limits, p: Parser)
    requires Step(limits, p).Continue? || Step(limits, p).Complete?
    ensures var rest := Step(limits, p).p.buffer; |rest| <= |p.buffer| && rest == p.buffer[|p.buffer| - |rest|..]
  {
    hide ParseRequestLine, ParseHeaderLine, BodyLength;
  }

  // ---------------------------------------------------------------------------------------------
  // Resource bounds
  // ---------------------------------------------------------------------------------------------

  /** The limits as they bind the counters of a parser at any time. */
  predicate WithinLimits(limits: Limits, p: Parser)
  {
    && p.headerBytes <= limits.maxHeaderBytes
    && p.headerCount <= limits.maxHeaderCount
    && (p.state.Body? ==> p.bodyLength <= limits.maxBodySize)
  }

  /** What a parser that waits for bytes may retain. */
  predicate RetainsLittle(limits: Limits, p: Parser)
  {
    match p.state
    case RequestLine => |p.buffer| <= limits.maxRequestLineLength
    case Headers => |p.buffer| <= limits.maxHeaderBytes
    case Body => |p.buffer| < p.bodyLength <= limits.maxBodySize
  }

  lemma {:induction false} NextBounds(limits: Limits, p: Parser)
    requires WithinLimits(limits, p)
    ensures var r := ParseNext(limits, p);
            WithinLimits(limits, r.p) && (r.status.NeedMoreData? ==> RetainsLittle(limits, r.p))
    decreases Fuel(p)
  {
    hide ParseRequestLine, ParseHeaderLine;
    match Step(limits, p)
    case Continue(q) => NextBounds(limits, q);
    case _ =>
  }

  lemma {:induction false} DrainBounds(limits: Limits, p: Parser)
    requires WithinLimits(limits, p)
    ensures var d := Drain(limits, p);
            d.outcome.Live? ==> WithinLimits(limits, d.outcome.p) && RetainsLittle(limits, d.outcome.p)
    decreases Fuel(p)
  {
    NextBounds(limits, p);
    NextShrinks(limits, p);
    var r := ParseNext(limits, p);
    if r.status.Parsed? {
      DrainBounds(limits, r.p);
    }
  }

  /** On every run, however the bytes arrive, a waiting parser stays within the limits of its state. */
  lemma {:induction false} RunBounds(limits: Limits, p: Parser, pieces: seq<string>)
    requires WithinLimits(limits, p) && RetainsLittle(limits, p)
    ensures var d := DrainPieces(limits, p, pieces);
            d.outcome.Live? ==> WithinLimits(limits, d.outcome.p) && RetainsLittle(limits, d.outcome.p)
    decreases |pieces|
  {
    if pieces != [] {
      DrainBounds(limits, p.Fed(pieces[0]));
      var first := Drain(limits, p.Fed(pieces[0]));
      if first.outcome.Live? {
        RunBounds(limits, first.outcome.p, pieces[1..]);
      }
    }
  }

  /** With the limits the server uses: 8 KiB of a request line, 16 KiB of a header section or less than 10 MiB
      of a body are all that a waiting parser holds. */
  lemma DefaultRunBounds(pieces: seq<string>)
    ensures var d := DrainPieces(DEFAULT_LIMITS, Fresh(""), pieces);
            d.outcome.Live? ==>
              match d.outcome.p.state
              case RequestLine => |d.outcome.p.buffer| <= 8_192
              case Headers => |d.outcome.p.buffer| <= 16_384 && d.outcome.p.headerCount <= 100
              case Body => |d.outcome.p.buffer| < 10_485_760
  {
    RunBounds(DEFAULT_LIMITS, Fresh(""), pieces);
  }
}
