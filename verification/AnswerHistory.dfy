/** What the answers on a connection say about the bytes received: each is the result of `next` on the
    bytes since the one before, so the history can be replayed from the bytes. */
module AnswerHistory {
  import opened HttpParser
  import opened Fragmentation
  import opened RequestRoundTrip
  import opened EventLoop

  /** How many bytes had been received before answer `k`, and the parser then. */
  function Before(answers: seq<Answer>, k: nat): nat
    requires k <= |answers|
  {
    if k == 0 then 0 else answers[k - 1].at
  }

  function ParserBefore(answers: seq<Answer>, k: nat): Parser
    requires k <= |answers|
  {
    if k == 0 then Fresh("") else answers[k - 1].parser
  }

  /** That parser with the bytes up to `to` fed. */
  function Reached(received: string, answers: seq<Answer>, k: nat, to: nat): Parser
    requires k <= |answers| && Before(answers, k) <= to <= |received|
  {
    ParserBefore(answers, k).Fed(received[Before(answers, k)..to])
  }

  /** Answer `k` is what `next` returned when its bytes had come, with the parser it left. */
  predicate ReplaysAt(limits: Limits, received: string, answers: seq<Answer>, k: nat)
    requires k < |answers|
  {
    && Before(answers, k) < answers[k].at <= |received|
    && !answers[k].status.NeedMoreData?
    && ParseNext(limits, Reached(received, answers, k, answers[k].at)) == NextResult(answers[k].status, answers[k].parser)
  }

  ghost predicate Replays(limits: Limits, received: string, answers: seq<Answer>)
  {
    forall k: nat {:trigger ReplaysAt(limits, received, answers, k)} | k < |answers| ::
      ReplaysAt(limits, received, answers, k)
  }

  /** The parser now: as the last answer left it, or waiting for more behind the bytes since. */
  predicate Waits(limits: Limits, received: string, answers: seq<Answer>, p: Parser)
  {
    var n := |answers|;
    && Before(answers, n) <= |received|
    && ((Before(answers, n) == |received| && p == ParserBefore(answers, n)) ||
        ParseNext(limits, Reached(received, answers, n, |received|)) == NextResult(NeedMoreData, p))
  }

  ghost predicate History(limits: Limits, received: string, answers: seq<Answer>, p: Parser)
  {
    Replays(limits, received, answers) && Waits(limits, received, answers, p)
  }

  // ---------------------------------------------------------------------------------------------
  // Bytes arrive
  // ---------------------------------------------------------------------------------------------

  /** What was replayed stays so with more bytes and more answers behind. */
  lemma ReplayStays(limits: Limits, received: string, answers: seq<Answer>, data: string, more: seq<Answer>, k: nat)
    requires k < |answers| && ReplaysAt(limits, received, answers, k)
    ensures ReplaysAt(limits, received + data, answers + more, k)
  {
    hide ParseNext;
    var from, to := Before(answers, k), answers[k].at;
    assert (received + data)[from..to] == received[from..to];
  }

  /** `next` on what the parser holds and what has come is `next` on all bytes since the last answer. */
  lemma NextReplays(limits: Limits, received: string, answers: seq<Answer>, p: Parser, data: string)
    requires Waits(limits, received, answers, p)
    ensures Before(answers, |answers|) <= |received|
    ensures ParseNext(limits, p.Fed(data)) ==
            ParseNext(limits, Reached(received + data, answers, |answers|, |received + data|))
  {
    hide ParseNext;
    var all, n := received + data, |answers|;
    var from := Before(answers, n);
    var before := Reached(received, answers, n, |received|);
    assert all[from..|all|] == received[from..|received|] + data;
    FedTwice(ParserBefore(answers, n), received[from..|received|], data);
    NextStable(limits, before, data);
    if ParseNext(limits, before) != NextResult(NeedMoreData, p) {
      assert received[from..|received|] == "" && p.buffer + "" == p.buffer;
    }
  }

  lemma FedTwice(p: Parser, a: string, b: string)
    ensures p.Fed(a).Fed(b) == p.Fed(a + b)
  {
    assert p.buffer + a + b == p.buffer + (a + b);
  }

  /** One call of the callback carries the history on. */
  lemma HistoryStep(limits: Limits, received: string, answers: seq<Answer>, p: Parser, data: string, bytes: string)
    requires History(limits, received, answers, p) && data != ""
    ensures var next := ParseNext(limits, p.Fed(data)); var all := received + data;
            if next.status.NeedMoreData? then History(limits, all, answers, next.p)
            else History(limits, all, answers + [Answer(next.status, |all|, next.p, bytes)], next.p)
  {
    hide ParseNext, ReplaysAt;
    NextReplays(limits, received, answers, p, data);
    var next, all := ParseNext(limits, p.Fed(data)), received + data;
    var more := if next.status.NeedMoreData? then [] else [Answer(next.status, |all|, next.p, bytes)];
    forall k: nat | k < |answers| ensures ReplaysAt(limits, all, answers + more, k) {
      ReplayStays(limits, received, answers, data, more, k);
    }
    if next.status.NeedMoreData? {
      assert answers + more == answers;
    } else {
      LastReplays(limits, all, answers, more[0]);
    }
  }

  lemma LastReplays(limits: Limits, received: string, answers: seq<Answer>, a: Answer)
    requires Before(answers, |answers|) < a.at == |received| && !a.status.NeedMoreData?
    requires ParseNext(limits, Reached(received, answers, |answers|, |received|)) == NextResult(a.status, a.parser)
    ensures ReplaysAt(limits, received, answers + [a], |answers|) && Waits(limits, received, answers + [a], a.parser)
  {
    hide ParseNext;
  }

  /** Before the first answer the parser holds no more than the limit of its state. */
  lemma WaitingIsBounded(limits: Limits, received: string, p: Parser)
    requires Waits(limits, received, [], p)
    ensures WithinLimits(limits, p) && RetainsLittle(limits, p)
  {
    if p != Fresh("") {
      NextBounds(limits, Reached(received, [], 0, |received|));
    }
  }

  // ---------------------------------------------------------------------------------------------
  // One request and what follows it
  // ---------------------------------------------------------------------------------------------

  predicate Incomplete(limits: Limits, text: string)
  {
    ParseNext(limits, Fresh(text)).status.NeedMoreData?
  }

  /** Bytes that neither complete a request nor are refused, however they are cut. */
  predicate CompletesNothing(limits: Limits, extra: string)
    decreases |extra|
  {
    Incomplete(limits, extra) && (extra == "" || CompletesNothing(limits, extra[..|extra| - 1]))
  }

  /** So every prefix is incomplete. */
  lemma {:induction false} NoPrefixCompletes(limits: Limits, extra: string, n: nat)
    requires CompletesNothing(limits, extra) && n <= |extra|
    ensures Incomplete(limits, extra[..n])
    decreases |extra|
  {
    hide Incomplete;
    if n == |extra| {
      assert extra[..n] == extra;
    } else {
      NoPrefixCompletes(limits, extra[..|extra| - 1], n);
      assert extra[..|extra| - 1][..n] == extra[..n];
    }
  }

  /** If a text that stays away from the line limit is incomplete, so is each prefix. */
  lemma PrefixIncomplete(limits: Limits, extra: string, n: nat)
    requires !PassesLimit(limits, Fresh(extra)) && Incomplete(limits, extra) && n <= |extra|
    ensures Incomplete(limits, extra[..n])
  {
    var p := Fresh(extra[..n]);
    assert p.Fed(extra[n..]) == Fresh(extra) by { assert extra[..n] + extra[n..] == extra; }
    NextStable(limits, p, extra[n..]);
    DrainSplit(limits, p, extra[n..]);
    hide ParseNext, PassesLimit;
  }

  lemma {:induction false} PrefixesIncomplete(limits: Limits, extra: string, n: nat)
    requires n <= |extra| && forall k | 0 <= k <= n :: Incomplete(limits, extra[..k])
    ensures CompletesNothing(limits, extra[..n])
    decreases n
  {
    hide Incomplete;
    assert extra[..n] == extra[..n][..n];
    if n > 0 {
      PrefixesIncomplete(limits, extra, n - 1);
      assert extra[..n][..n - 1] == extra[..n - 1];
    }
  }

  /** Away from the line limit it is enough to look at all of them at once. */
  lemma CompletesNothingAtOnce(limits: Limits, extra: string)
    requires !PassesLimit(limits, Fresh(extra))
    ensures CompletesNothing(limits, extra) <==> Incomplete(limits, extra)
  {
    hide Incomplete, PassesLimit;
    assert extra[..|extra|] == extra;
    if Incomplete(limits, extra) {
      forall n | 0 <= n <= |extra| ensures Incomplete(limits, extra[..n]) {
        PrefixIncomplete(limits, extra, n);
      }
      PrefixesIncomplete(limits, extra, |extra|);
    }
  }

  /** The first answer is to the request, after all its bytes, and leaves the parser with what came behind. */
  lemma FirstAnswer(limits: Limits, w: WireRequest, extra: string, answers: seq<Answer>)
    requires AllBelowLimits(limits, [w]) && answers != [] && ReplaysAt(limits, Print(w) + extra, answers, 0)
    ensures var n := answers[0].at;
            && |Print(w)| <= n <= |Print(w) + extra| && answers[0].status == Parsed(Received(w))
            && answers[0].parser == Fresh(extra[..n - |Print(w)|])
  {
    hide Print, WellFormed, AllBelowLimits, ParseNext;
    var received, n := Print(w) + extra, answers[0].at;
    assert received[0..n] == received[..n] && "" + received[..n] == received[..n];
    assert Reached(received, answers, 0, n) == Fresh(received[..n]);
    BelowLimits(limits, w);
    if n < |Print(w)| {
      assert received[..n] == Print(w)[..n];
      PrefixNeedsMore(limits, w, n);
    } else {
      assert received[..n] == Print(w) + extra[..n - |Print(w)|];
      OneRequestRoundTrip(limits, w, extra[..n - |Print(w)|]);
    }
  }

  lemma BelowLimits(limits: Limits, w: WireRequest)
    requires AllBelowLimits(limits, [w])
    ensures WellFormed(limits, w)
  {
    assert [w][0] == w;
  }

  /** A client that sends one request, and behind it nothing that completes another or is refused, is
      answered once. */
  lemma AnsweredOnce(limits: Limits, w: WireRequest, extra: string, answers: seq<Answer>)
    requires AllBelowLimits(limits, [w]) && answers != [] && CompletesNothing(limits, extra)
    requires Replays(limits, Print(w) + extra, answers)
    ensures |answers| == 1
  {
    hide Incomplete, CompletesNothing, Print, AllBelowLimits, ReplaysAt;
    if |answers| > 1 {
      var m := SecondAnswer(limits, w, extra, answers);
      NoPrefixCompletes(limits, extra, m);
    }
  }

  /** A second answer says that some of the bytes behind the request were parsed or refused. */
  lemma SecondAnswer(limits: Limits, w: WireRequest, extra: string, answers: seq<Answer>) returns (m: nat)
    requires AllBelowLimits(limits, [w]) && |answers| > 1 && Replays(limits, Print(w) + extra, answers)
    ensures m <= |extra| && !Incomplete(limits, extra[..m]) && answers[0].at < |Print(w) + extra|
  {
    hide Print, WellFormed, AllBelowLimits, ParseNext;
    var received, n, to := Print(w) + extra, answers[0].at, answers[1].at;
    assert ReplaysAt(limits, received, answers, 0) && ReplaysAt(limits, received, answers, 1);
    FirstAnswer(limits, w, extra, answers);
    m := to - |Print(w)|;
    ReachedBehind(Print(w), extra, answers, 1, to);
  }

  lemma ReachedBehind(printed: string, extra: string, answers: seq<Answer>, k: nat, to: nat)
    requires 0 < k <= |answers| && |printed| <= answers[k - 1].at <= to <= |printed + extra|
    requires answers[k - 1].parser == Fresh(extra[..answers[k - 1].at - |printed|])
    ensures Reached(printed + extra, answers, k, to) == Fresh(extra[..to - |printed|])
  {
    var n := answers[k - 1].at;
    var a, b := n - |printed|, to - |printed|;
    assert (printed + extra)[n..to] == extra[a..b];
    assert extra[..a] + extra[a..b] == extra[..b];
  }

  /** Exactly when a client that sent one request and more bytes has been answered once: all had come by the
      first answer, or what is behind the request completes nothing. */
  lemma AnsweredOnceExactly(limits: Limits, w: WireRequest, extra: string, answers: seq<Answer>, p: Parser)
    requires AllBelowLimits(limits, [w]) && answers != [] && History(limits, Print(w) + extra, answers, p)
    requires !PassesLimit(limits, Fresh(extra))
    ensures |answers| == 1 <==> answers[0].at == |Print(w) + extra| || Incomplete(limits, extra)
  {
    hide Print, WellFormed, AllBelowLimits, ParseNext, PassesLimit, CompletesNothing, ReplaysAt;
    var received := Print(w) + extra;
    assert ReplaysAt(limits, received, answers, 0);
    FirstAnswer(limits, w, extra, answers);
    if |answers| == 1 {
      ReachedBehind(Print(w), extra, answers, 1, |received|);
      assert extra[..|received| - |Print(w)|] == extra;
    } else {
      var m := SecondAnswer(limits, w, extra, answers);
      if Incomplete(limits, extra) {
        CompletesNothingAtOnce(limits, extra);
        AnsweredOnce(limits, w, extra, answers);
      }
    }
  }
}
