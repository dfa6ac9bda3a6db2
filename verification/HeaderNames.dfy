/** Header names: their case does not matter, the last header of a name counts, and a parsed request
    knows them without capitals only. */
module HeaderNames {
  import opened Common
  import opened Decimal
  import opened HttpText
  import opened HttpGrammar
  import opened HttpParser
  import opened Fragmentation
  import opened RequestRoundTrip

  type Headers = seq<(string, string)>

  /** Header `i` is the last one with this name, up to case. */
  predicate LastNamed(headers: Headers, name: string, i: nat)
  {
    && i < |headers| && SameName(headers[i].0, name)
    && forall j | i < j < |headers| :: !SameName(headers[j].0, name)
  }

  ghost predicate Named(headers: Headers, name: string)
  {
    exists i :: 0 <= i < |headers| && SameName(headers[i].0, name)
  }

  lemma {:induction false} LastExists(headers: Headers, name: string, k: nat) returns (i: nat)
    requires k < |headers| && SameName(headers[k].0, name)
    ensures LastNamed(headers, name, i)
    decreases |headers| - k
  {
    hide SameName;
    if j :| k < j < |headers| && SameName(headers[j].0, name) {
      i := LastExists(headers, name, j);
    } else {
      i := k;
    }
  }

  lemma {:induction false} Lookup(headers: Headers, m: map<string, string>, key: string)
    requires Lower(key)
    ensures var r := HeaderMap(headers, m);
            && (forall i: nat | LastNamed(headers, key, i) :: key in r && r[key] == headers[i].1)
            && (!Named(headers, key) ==> (key in r <==> key in m) && (key in m ==> r[key] == m[key]))
    decreases |headers|
  {
    if headers != [] {
      var name, value, rest := headers[0].0, headers[0].1, headers[1..];
      var n := m[ToLower(name) := value];
      Lookup(rest, n, key);
      LowerMeaning(name, key);
      LowerMeaning(name, ToLower(name));
      hide SameName, Lower;
      assert forall j | 0 <= j < |rest| :: rest[j] == headers[j + 1];
      forall i: nat | LastNamed(headers, key, i)
        ensures key in HeaderMap(headers, m) && HeaderMap(headers, m)[key] == headers[i].1
      {
        if i > 0 {
          assert LastNamed(rest, key, i - 1);
        } else {
          assert !Named(rest, key);
        }
      }
      if Named(rest, key) {
        var j :| 0 <= j < |rest| && SameName(rest[j].0, key);
        assert Named(headers, key);
      }
    }
  }

  lemma {:induction false} KeysAreLower(headers: Headers, m: map<string, string>)
    requires forall k | k in m :: Lower(k)
    ensures forall k | k in HeaderMap(headers, m) :: Lower(k)
    decreases |headers|
  {
    if headers != [] {
      LowerMeaning(headers[0].0, ToLower(headers[0].0));
      hide Lower;
      KeysAreLower(headers[1..], m[ToLower(headers[0].0) := headers[0].1]);
    }
  }

  /** The header map of a request: the names without capitals, each with the value of the last header that
      has the name in whatever case. */
  lemma HeaderMapMeaning(headers: Headers, key: string, value: string)
    ensures key in HeaderMap(headers, map[]) && HeaderMap(headers, map[])[key] == value <==>
            Lower(key) && exists i: nat :: LastNamed(headers, key, i) && headers[i].1 == value
  {
    KeysAreLower(headers, map[]);
    hide Lower, SameName;
    if Lower(key) {
      Lookup(headers, map[], key);
      if Named(headers, key) {
        var k :| 0 <= k < |headers| && SameName(headers[k].0, key);
        var i := LastExists(headers, key, k);
      }
    }
  }

  /** The body a header section announces: none of the headers is a transfer coding, and the last length
      header, if there is one, is a numeral within the limit. */
  lemma BodyAnnounced(limits: Limits, headers: Headers, n: nat)
    ensures BodyLength(limits, HeaderMap(headers, map[])) == Some(n) <==>
            && !Named(headers, "transfer-encoding")
            && if Named(headers, "content-length")
               then n <= limits.maxBodySize && n <= U64_MAX &&
                    exists i: nat :: LastNamed(headers, "content-length", i) && Numeral(headers[i].1, n)
               else n == 0
  {
    assert Lower("transfer-encoding") && Lower("content-length");
    hide Lower, SameName, HeaderMap, Value, AllDigits;
    Lookup(headers, map[], "transfer-encoding");
    Lookup(headers, map[], "content-length");
    if Named(headers, "transfer-encoding") {
      var k :| 0 <= k < |headers| && SameName(headers[k].0, "transfer-encoding");
      var i := LastExists(headers, "transfer-encoding", k);
    }
    if Named(headers, "content-length") {
      var k :| 0 <= k < |headers| && SameName(headers[k].0, "content-length");
      var i := LastExists(headers, "content-length", k);
    }
  }

  // ---------------------------------------------------------------------------------------------
  // Requests that differ in the case of header names
  // ---------------------------------------------------------------------------------------------

  predicate SameHeader(a: (string, string), b: (string, string))
  {
    SameName(a.0, b.0) && a.1 == b.1
  }

  /** The same request, with header names in any case. */
  predicate SameButForCase(w: WireRequest, v: WireRequest)
  {
    && v == w.(headers := v.headers) && |v.headers| == |w.headers|
    && forall i | 0 <= i < |w.headers| :: SameHeader(w.headers[i], v.headers[i])
  }

  lemma {:induction false} SameMap(a: Headers, b: Headers, m: map<string, string>)
    requires |a| == |b| && forall i | 0 <= i < |a| :: SameHeader(a[i], b[i])
    ensures HeaderMap(a, m) == HeaderMap(b, m) && HeaderSize(a) == HeaderSize(b)
    decreases |a|
  {
    if a != [] {
      SameLower(a[0].0, b[0].0);
      assert SameHeader(a[0], b[0]);
      SameMap(a[1..], b[1..], m[ToLower(a[0].0) := a[0].1]);
    }
  }

  lemma SameHeaderWellFormed(a: (string, string), b: (string, string))
    requires WellFormedHeader(a) && SameHeader(a, b)
    ensures WellFormedHeader(b)
  {
    var before, after := HeaderLineOf(a), HeaderLineOf(b);
    assert forall i | 0 <= i < |a.0| :: before[i] == a.0[i] && after[i] == b.0[i] && SameLetter(a.0[i], b.0[i]);
    assert forall i | |a.0| <= i < |before| :: before[i] == after[i];
    forall i ensures !CrlfAt(after, i) {
      assert !CrlfAt(before, i);
    }
    assert Blanks("") && "" + b.0 + "" == b.0;
    TrimMeaning(a.0, a.0);
    TrimMeaning(b.0, b.0);
  }

  /** The case of header names does not matter: such requests are parsed alike, whatever follows them. */
  lemma CaseDoesNotMatter(limits: Limits, w: WireRequest, v: WireRequest, rest: string)
    requires WellFormed(limits, w) && SameButForCase(w, v)
    ensures WellFormed(limits, v) && Received(v) == Received(w)
    ensures ParseNext(limits, Fresh(Print(v) + rest)) == ParseNext(limits, Fresh(Print(w) + rest))
  {
    SameMap(w.headers, v.headers, map[]);
    hide WellFormedLine, WellFormedHeader, SameName, HeaderMap, BodyLength, ParseNext, Print, HeaderSize;
    forall i | 0 <= i < |v.headers| ensures WellFormedHeader(v.headers[i]) {
      assert SameHeader(w.headers[i], v.headers[i]);
      SameHeaderWellFormed(w.headers[i], v.headers[i]);
    }
    assert WellFormedLine(v) && RequestLineOf(v) == RequestLineOf(w) by { SameLine(w, v); }
    OneRequestRoundTrip(limits, w, rest);
    OneRequestRoundTrip(limits, v, rest);
  }

  lemma SameLine(w: WireRequest, v: WireRequest)
    requires v == w.(headers := v.headers) && WellFormedLine(w)
    ensures WellFormedLine(v) && RequestLineOf(v) == RequestLineOf(w)
  {
  }

  // ---------------------------------------------------------------------------------------------
  // What handlers see
  // ---------------------------------------------------------------------------------------------

  predicate LowerKeys(request: HttpRequest)
  {
    forall k | k in request.headers :: Lower(k)
  }

  lemma StepKeepsLower(limits: Limits, p: Parser)
    requires LowerKeys(p.inProgress)
    ensures match Step(limits, p)
            case NeedMore => true
            case Failed(q) => LowerKeys(q.inProgress)
            case Complete(request, q) => LowerKeys(request) && LowerKeys(q.inProgress)
            case Continue(q) => LowerKeys(q.inProgress)
  {
    hide TrimOws, PercentDecode, BodyLength;
    if p.state.Headers? && FindCrlf(p.buffer).Some? {
      var line := p.buffer[..FindCrlf(p.buffer).value];
      var colon := FindChar(line, ':', 0);
      if colon.Some? {
        var name := TrimOws(line[..colon.value]);
        LowerMeaning(name, ToLower(name));
      }
    }
  }

  lemma {:induction false} NextKeepsLower(limits: Limits, p: Parser)
    requires LowerKeys(p.inProgress)
    ensures LowerKeys(ParseNext(limits, p).p.inProgress)
    ensures ParseNext(limits, p).status.Parsed? ==> LowerKeys(ParseNext(limits, p).status.request)
    decreases Fuel(p)
  {
    hide LowerKeys, Step;
    StepKeepsLower(limits, p);
    match Step(limits, p)
    case Continue(q) =>
      StepShrinks(limits, p);
      NextKeepsLower(limits, q);
    case _ =>
  }

  lemma {:induction false} DrainKeepsLower(limits: Limits, p: Parser)
    requires LowerKeys(p.inProgress)
    ensures var d := Drain(limits, p);
            && (forall r | r in d.requests :: LowerKeys(r))
            && (d.outcome.Live? ==> LowerKeys(d.outcome.p.inProgress))
    decreases Fuel(p)
  {
    hide LowerKeys, ParseNext;
    NextKeepsLower(limits, p);
    NextShrinks(limits, p);
    if ParseNext(limits, p).status.Parsed? {
      DrainKeepsLower(limits, ParseNext(limits, p).p);
    }
  }

  /** No header of a request that any stream, however cut, parses to has a capital letter in its name. */
  lemma {:induction false} ParsedKeysAreLower(limits: Limits, p: Parser, pieces: seq<string>, request: HttpRequest)
    requires LowerKeys(p.inProgress) && request in DrainPieces(limits, p, pieces).requests
    ensures LowerKeys(request)
    decreases |pieces|
  {
    hide LowerKeys, Drain;
    var d := Drain(limits, p.Fed(pieces[0]));
    DrainKeepsLower(limits, p.Fed(pieces[0]));
    if request !in d.requests {
      ParsedKeysAreLower(limits, d.outcome.p, pieces[1..], request);
    }
  }
}
