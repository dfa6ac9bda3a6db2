/** The stream route inside the whole server: from the request a client sends to the bytes it gets back. */
module StreamServer {
  import opened Common
  import opened HttpText
  import opened HttpGrammar
  import opened HeaderNames
  import opened RequestRoundTrip
  import opened Range
  import opened HttpResponse
  import opened Router
  import opened StreamRoute
  import opened EventLoop
  import opened WholeServer

  /** The segments of the route's pattern, or of a request path when a track id stands for "{id}". */
  function StreamSegments(id: string): seq<string>
  {
    ["api", "v1", "tracks", id, "stream"]
  }

  const PATTERN := StreamSegments("{id}")

  function RangeHeader(request: HttpRequest): Option<string>
  {
    if "range" in request.headers then Some(request.headers["range"]) else None
  }

  /** The handler is the stream route over this catalog. */
  ghost predicate StreamsTracks(h: Handler, cat: Catalog, errorText: ErrorText)
  {
    forall request: HttpRequest, params: Params | "id" in params ::
      h(request, params) == StreamResponse(cat, params["id"], RangeHeader(request), errorText)
  }

  lemma PathIsJoined(id: string)
    ensures JoinPath(StreamSegments(id)) == "/api/v1/tracks/" + id + "/stream"
  {
    var s := StreamSegments(id);
    assert s[1..] == ["v1", "tracks", id, "stream"] && s[1..][1..] == ["tracks", id, "stream"];
    assert s[1..][1..][1..] == [id, "stream"] && s[1..][1..][1..][1..] == ["stream"];
    assert JoinPath(["stream"]) == "/stream" by { assert ["stream"][1..] == []; }
    assert JoinPath([id, "stream"]) == "/" + id + "/stream";
    assert JoinPath(["tracks", id, "stream"]) == "/tracks" + ("/" + id + "/stream");
  }

  /** The pattern splits into its segments, and so does the path of a track, which it matches with `id` captured. */
  lemma StreamPath(id: string)
    requires id != "" && SlashFree(id)
    ensures SplitPath("/api/v1/tracks/" + id + "/stream") == StreamSegments(id)
  {
    PathIsJoined(id);
    var segments := StreamSegments(id);
    forall s | s in segments ensures s != "" && SlashFree(s) {
      SegmentsAreClean(id, s);
    }
    hide SplitFrom, JoinPath, StreamSegments;
    SplitJoin("", segments);
    assert "" + JoinPath(segments) == JoinPath(segments);
  }

  lemma SegmentsAreClean(id: string, s: string)
    requires id != "" && SlashFree(id) && s in StreamSegments(id)
    ensures s != "" && SlashFree(s)
  {
  }

  lemma StreamCaptures(id: string)
    ensures "id" in Captured(PATTERN, StreamSegments(id)) && Captured(PATTERN, StreamSegments(id))["id"] == id
  {
    var p, s := PATTERN, StreamSegments(id);
    assert p[..5] == p && s[..5] == s;
    PrefixCaptures(id);
    assert p[..5][..4] == p[..4] && s[..5][..4] == s[..4];
    assert !IsParamSegment("stream");
  }

  lemma PrefixCaptures(id: string)
    ensures var c := Captured(PATTERN[..4], StreamSegments(id)[..4]); "id" in c && c["id"] == id
  {
    var p, s := PATTERN[..4], StreamSegments(id)[..4];
    NothingCaptured(id, 3);
    assert p[..3] == PATTERN[..3] && s[..3] == StreamSegments(id)[..3];
    assert p[3] == "{id}" && "{id}"[1..3] == "id";
  }

  lemma {:induction false} NothingCaptured(id: string, n: nat)
    requires n <= 3
    ensures Captured(PATTERN[..n], StreamSegments(id)[..n]) == map[]
    decreases n
  {
    if n > 0 {
      NothingCaptured(id, n - 1);
      assert PATTERN[..n][..n - 1] == PATTERN[..n - 1];
      assert StreamSegments(id)[..n][..n - 1] == StreamSegments(id)[..n - 1];
      assert !IsParamSegment(PATTERN[n - 1]);
    }
  }

  lemma StreamDispatch(env: Env, request: HttpRequest, k: nat, cat: Catalog, idText: string, id: nat)
    requires FirstMatch(env.routes, request, k) && IsStreamRoute(env, k, cat)
    requires NamesFile(cat, idText, id) && request.path == "/api/v1/tracks/" + idText + "/stream"
    ensures Dispatch(env.routes, request, env.errorText) == StreamResponse(cat, idText, RangeHeader(request), env.errorText)
  {
    NamedIsParsed(cat, idText, id);
    StreamPath(idText);
    assert SplitPath(request.path) == StreamSegments(idText);
    StreamCaptures(idText);
    DispatchMeaning(env.routes, request, env.errorText);
    hide SplitPath, DispatchFrom, StreamResponse, Captured, JoinPath, NamesFile, Fits, StreamSegments;
    var j: nat :| FirstMatch(env.routes, request, j) &&
      Dispatch(env.routes, request, env.errorText) ==
      env.routes[j].handler(request, Captured(env.routes[j].segments, SplitPath(request.path)));
    assert j == k;
  }

  ghost predicate IsStreamRoute(env: Env, k: nat, cat: Catalog)
  {
    k < |env.routes| && env.routes[k].segments == PATTERN && StreamsTracks(env.routes[k].handler, cat, env.errorText)
  }

  /** The request is a GET for the stream of track `id`, which the router gives to the stream route and
      whose file opens. */
  ghost predicate AsksForTrack(env: Env, w: WireRequest, cat: Catalog, idText: string, id: nat)
  {
    && w.verb == "GET" && w.path == "/api/v1/tracks/" + idText + "/stream"
    && (exists k: nat :: FirstMatch(env.routes, Received(w), k) && IsStreamRoute(env, k, cat))
    && NamesFile(cat, idText, id)
  }

  /** Header `i` of the request is the last one named "range", in whatever case, and denotes `spec`, which
      RFC 7233 calls satisfiable for the file, in 64-bit numbers. */
  ghost predicate AsksForRange(w: WireRequest, i: nat, file: string, spec: RangeSpec)
  {
    LastNamed(w.headers, "range", i) && Denotes(w.headers[i].1, spec) && FitsU64(spec) && Selects(spec, |file|).Some?
  }

  /** Such a header is what the handler finds under "range". */
  lemma RangeIsFound(w: WireRequest, i: nat)
    requires LastNamed(w.headers, "range", i)
    ensures RangeHeader(Received(w)) == Some(w.headers[i].1)
  {
    assert Lower("range");
    hide LastNamed, Lower, HeaderMap;
    HeaderMapMeaning(w.headers, "range", w.headers[i].1);
  }

  /** What such a request is owed: the head of a 206 response that describes the selected bytes, and those bytes. */
  lemma RangeIsOwed(env: Env, w: WireRequest, cat: Catalog, idText: string, id: nat, codec: string, n: nat, spec: RangeSpec)
    returns (r: HttpResponse)
    requires ValidEnv(env) && AsksForTrack(env, w, cat, idText, id) && HasCodec(cat, id, codec) && AsksForRange(w, n, FileOf(cat, id), spec)
    ensures var (first, last) := Selects(spec, |FileOf(cat, id)|).value;
            && Delivers(r, codec, FileOf(cat, id), first, last)
            && OwedTo(env, w) == Head(r, env.order(WireHeaders(r))) + FileOf(cat, id)[first..last + 1]
  {
    RangeIsFound(w, n);
    hide FirstMatch, Denotes, Selects, FitsU64, Head, WireHeaders, HeaderMap, SpellsId, JoinPath, LastNamed, IsStreamRoute,
         StreamResponse, StreamSegments, Enumerates, Dispatch, Describes, SaysRange;
    var k: nat :| FirstMatch(env.routes, Received(w), k) && IsStreamRoute(env, k, cat);
    StreamDispatch(env, Received(w), k, cat, idText, id);
    RangedResponse(cat, idText, id, codec, w.headers[n].1, spec, env.errorText);
    r := StreamResponse(cat, idText, RangeHeader(Received(w)), env.errorText);
  }

  /** A byte-range request over the whole server: on every run, whoever sent that request, with nothing
      behind it that completes another, and was closed after draining has received the head of a 206
      response describing file[first..last], and exactly those bytes. */
  lemma RangeOverTheWire(env: Env, listeners: set<int>, steps: seq<Step>, i: nat, w: WireRequest, extra: string,
                         cat: Catalog, idText: string, id: nat, codec: string, n: nat, spec: RangeSpec) returns (r: HttpResponse)
    requires ValidEnv(env) && AsksForTrack(env, w, cat, idText, id) && HasCodec(cat, id, codec) && AsksForRange(w, n, FileOf(cat, id), spec)
    requires ServedOne(env, listeners, steps, i, w, extra)
    ensures var (first, last) := Selects(spec, |FileOf(cat, id)|).value;
            && Delivers(r, codec, FileOf(cat, id), first, last)
            && ClosedBy(env, listeners, steps)[i].link.conn.wire ==
               Head(r, env.order(WireHeaders(r))) + FileOf(cat, id)[first..last + 1]
  {
    hide ClosedBy, ServedOne, Denotes, Selects, FitsU64, Head, WireHeaders, Received, SpellsId, LastNamed,
         Enumerates, Dispatch, OwedTo, Describes, SaysRange;
    WholeServerSafety(env, listeners, steps, i, w, extra);
    r := RangeIsOwed(env, w, cat, idText, id, codec, n, spec);
  }
}
