/** Matching a request against the registered routes. */
module Router {
  import opened Decimal
  import opened HttpText
  import opened HttpResponse

  type Params = map<string, string>
  type Handler = (HttpRequest, Params) -> HttpResponse

  datatype Route = Route(verb: string, segments: seq<string>, handler: Handler)

  /** The JSON error text for a code and a message. */
  type ErrorText = (string, string) -> string

  // ---------------------------------------------------------------------------------------------
  // Paths
  // ---------------------------------------------------------------------------------------------

  predicate SlashFree(s: string)
  {
    forall i | 0 <= i < |s| :: s[i] != '/'
  }

  /** End of the segment that starts at `i`. */
  function SegmentEnd(path: string, i: nat): (e: nat)
    requires i <= |path|
    ensures i <= e <= |path| && SlashFree(path[i..e]) && (e < |path| ==> path[e] == '/')
    decreases |path| - i
  {
    if i == |path| || path[i] == '/' then i
    else
      var e := SegmentEnd(path, i + 1);
      assert path[i..e] == [path[i]] + path[i + 1..e];
      e
  }

  function SplitFrom(path: string, i: nat): (segments: seq<string>)
    requires i <= |path|
    ensures forall s | s in segments :: s != "" && SlashFree(s)
    decreases |path| - i
  {
    if i == |path| then []
    else if path[i] == '/' then SplitFrom(path, i + 1)
    else
      var e := SegmentEnd(path, i);
      [path[i..e]] + SplitFrom(path, e)
  }

  /** The non-empty pieces between slashes; repeated, leading and trailing slashes do not matter. */
  function SplitPath(path: string): seq<string>
  {
    SplitFrom(path, 0)
  }

  method SplitPathLoop(path: string) returns (segments: seq<string>)
    ensures segments == SplitPath(path)
  {
    segments := [];
    var i := 0;
    while i < |path|
      invariant 0 <= i <= |path|
      invariant SplitPath(path) == segments + SplitFrom(path, i)
    {
      while i < |path| && path[i] == '/'
        invariant 0 <= i <= |path|
        invariant SplitPath(path) == segments + SplitFrom(path, i)
      {
        i := i + 1;
      }
      var start := i;
      while i < |path| && path[i] != '/'
        invariant start <= i <= |path|
        invariant SegmentEnd(path, start) == SegmentEnd(path, i)
        invariant start < i ==> path[start] != '/'
      {
        i := i + 1;
      }
      if i > start {
        assert segments + ([path[start..i]] + SplitFrom(path, i)) == segments + [path[start..i]] + SplitFrom(path, i);
        segments := segments + [path[start..i]];
      }
    }
    assert segments + [] == segments;
  }

  function JoinPath(segments: seq<string>): string
  {
    if segments == [] then "" else "/" + segments[0] + JoinPath(segments[1..])
  }

  lemma SegmentEndAt(path: string, i: nat, e: nat)
    requires i <= e <= |path| && (e == |path| || path[e] == '/')
    requires forall k | i <= k < e :: path[k] != '/'
    ensures SegmentEnd(path, i) == e
    decreases e - i
  {
    if i < e {
      SegmentEndAt(path, i + 1, e);
    }
  }

  lemma SplitSegment(front: string, segment: string, later: string)
    requires segment != "" && SlashFree(segment) && (later != "" ==> later[0] == '/')
    ensures SplitFrom(front + segment + later, |front|) ==
            [segment] + SplitFrom(front + segment + later, |front + segment|)
  {
    var path := front + segment + later;
    assert forall k | |front| <= k < |front + segment| :: path[k] == segment[k - |front|];
    SegmentEndAt(path, |front|, |front + segment|);
    assert path[|front|..|front + segment|] == segment;
  }

  /** Splitting undoes joining, so a path and its segments carry the same routing information. */
  lemma {:induction false} SplitJoin(front: string, segments: seq<string>)
    requires forall s | s in segments :: s != "" && SlashFree(s)
    ensures SplitFrom(front + JoinPath(segments), |front|) == segments
    decreases |segments|
  {
    var path := front + JoinPath(segments);
    if segments == [] {
      assert path == front;
    } else {
      var later := JoinPath(segments[1..]);
      var start := front + "/";
      assert path == start + segments[0] + later;
      assert SplitFrom(path, |front|) == SplitFrom(path, |start|);
      hide SplitFrom, SlashFree;
      assert segments[0] in segments && forall s | s in segments[1..] :: s in segments;
      SplitSegment(start, segments[0], later);
      SplitJoin(start + segments[0], segments[1..]);
    }
  }

  predicate Slashes(s: string)
  {
    forall i | 0 <= i < |s| :: s[i] == '/'
  }

  /** Slashes before, between and after the segments: one at least between two of them. */
  predicate AreGaps(gaps: seq<string>, count: nat)
  {
    && |gaps| == count + 1
    && (forall i | 0 <= i < |gaps| :: Slashes(gaps[i]))
    && forall i | 0 < i < count :: gaps[i] != ""
  }

  function Spread(gaps: seq<string>, segments: seq<string>): string
    requires |gaps| == |segments| + 1
  {
    gaps[0] + if segments == [] then "" else segments[0] + Spread(gaps[1..], segments[1..])
  }

  lemma {:induction false} SkipSlashes(front: string, gap: string, rest: string)
    requires Slashes(gap)
    ensures SplitFrom(front + gap + rest, |front|) == SplitFrom(front + gap + rest, |front + gap|)
    decreases |gap|
  {
    if gap != "" {
      assert front + [gap[0]] + gap[1..] + rest == front + gap + rest;
      SkipSlashes(front + [gap[0]], gap[1..], rest);
    }
  }

  /** Behind a segment comes a slash or nothing. */
  lemma SpreadStarts(gaps: seq<string>, segments: seq<string>)
    requires |gaps| == |segments| + 1 && Slashes(gaps[0]) && (segments != [] ==> gaps[0] != "")
    ensures Spread(gaps, segments) != "" ==> Spread(gaps, segments)[0] == '/'
  {
  }

  lemma {:induction false} SplitSpread(front: string, gaps: seq<string>, segments: seq<string>)
    requires AreGaps(gaps, |segments|) && forall s | s in segments :: s != "" && SlashFree(s)
    ensures SplitFrom(front + Spread(gaps, segments), |front|) == segments
    decreases |segments|
  {
    hide SplitFrom, SlashFree;
    if segments == [] {
      assert front + Spread(gaps, segments) == front + gaps[0] + "";
      SkipSlashes(front, gaps[0], "");
      SplitEnd(front + gaps[0] + "");
    } else {
      var later := Spread(gaps[1..], segments[1..]);
      var start := front + gaps[0];
      assert front + Spread(gaps, segments) == start + (segments[0] + later) == start + segments[0] + later;
      SkipSlashes(front, gaps[0], segments[0] + later);
      SpreadStarts(gaps[1..], segments[1..]);
      assert segments[0] in segments;
      SplitSegment(start, segments[0], later);
      assert forall s | s in segments[1..] :: s in segments;
      SplitSpread(start + segments[0], gaps[1..], segments[1..]);
    }
  }

  lemma SplitEnd(path: string)
    ensures SplitFrom(path, |path|) == []
  {
  }

  lemma {:induction false} SplitFromIsSpread(path: string, i: nat) returns (gaps: seq<string>)
    requires i <= |path|
    ensures AreGaps(gaps, |SplitFrom(path, i)|) && path[i..] == Spread(gaps, SplitFrom(path, i))
    ensures i < |path| && SplitFrom(path, i) != [] && path[i] == '/' ==> gaps[0] != ""
    decreases |path| - i
  {
    if i == |path| {
      gaps := [""];
    } else if path[i] == '/' {
      var later := SplitFromIsSpread(path, i + 1);
      gaps := ["/" + later[0]] + later[1..];
      assert path[i..] == "/" + path[i + 1..];
      assert gaps[1..] == later[1..];
    } else {
      var e := SegmentEnd(path, i);
      var later := SplitFromIsSpread(path, e);
      gaps := [""] + later;
      assert SplitFrom(path, i)[1..] == SplitFrom(path, e) && gaps[1..] == later;
      assert path[i..] == path[i..e] + path[e..];
    }
  }

  /** A path splits into exactly the segments, not empty and without slashes, that it spreads between
      slashes, wherever and however many these are. */
  lemma SplitGrammar(path: string, segments: seq<string>)
    ensures SplitPath(path) == segments <==>
            && (forall s | s in segments :: s != "" && SlashFree(s))
            && exists gaps :: AreGaps(gaps, |segments|) && path == Spread(gaps, segments)
  {
    hide SplitFrom, SlashFree, Spread;
    if SplitPath(path) == segments {
      var gaps := SplitFromIsSpread(path, 0);
      assert path[0..] == path;
    }
    if (forall s | s in segments :: s != "" && SlashFree(s)) &&
       exists gaps :: AreGaps(gaps, |segments|) && path == Spread(gaps, segments) {
      var gaps :| AreGaps(gaps, |segments|) && path == Spread(gaps, segments);
      SplitSpread("", gaps, segments);
      assert "" + path == path;
    }
  }

  // ---------------------------------------------------------------------------------------------
  // Matching
  // ---------------------------------------------------------------------------------------------

  predicate IsParamSegment(s: string)
  {
    |s| >= 2 && s[0] == '{' && s[|s| - 1] == '}'
  }

  /** Segment by segment: a literal must be equal, "{name}" takes anything. */
  predicate PathMatches(pattern: seq<string>, segments: seq<string>)
  {
    |pattern| == |segments| &&
    forall i | 0 <= i < |pattern| :: IsParamSegment(pattern[i]) || pattern[i] == segments[i]
  }

  /** The captured parameters; `emplace` keeps the first capture of a name. */
  function Captured(pattern: seq<string>, segments: seq<string>): Params
    requires |pattern| == |segments|
  {
    if pattern == [] then map[]
    else
      var n := |pattern| - 1;
      var params := Captured(pattern[..n], segments[..n]);
      if !IsParamSegment(pattern[n]) then params
      else
        var name := pattern[n][1..|pattern[n]| - 1];
        if name in params then params else params[name := segments[n]]
  }

  // What a pattern means: text put in place of its holes.

  /** The segment is "{name}". */
  ghost predicate IsHole(segment: string)
  {
    exists name :: segment == "{" + name + "}"
  }

  lemma HoleMeaning(segment: string)
    ensures IsParamSegment(segment) <==> IsHole(segment)
    ensures forall name | segment == "{" + name + "}" :: name == segment[1..|segment| - 1]
  {
    if IsParamSegment(segment) {
      assert segment == "{" + segment[1..|segment| - 1] + "}";
    }
  }

  /** The names of a pattern's holes, in order. */
  ghost function HoleNames(pattern: seq<string>): (names: seq<string>)
  {
    if pattern == [] then []
    else
      var n := |pattern| - 1;
      HoleNames(pattern[..n]) + if name :| pattern[n] == "{" + name + "}" then [name] else []
  }

  /** The pattern with one value in place of each hole, the literal segments as they are. */
  ghost function Fill(pattern: seq<string>, values: seq<string>): (segments: seq<string>)
    requires |values| == |HoleNames(pattern)|
    ensures |segments| == |pattern|
  {
    if pattern == [] then []
    else
      var n := |pattern| - 1;
      if IsHole(pattern[n]) then Fill(pattern[..n], values[..|values| - 1]) + [values[|values| - 1]]
      else Fill(pattern[..n], values) + [pattern[n]]
  }

  /** The segments are the pattern with some values filled in. */
  ghost predicate Fits(pattern: seq<string>, segments: seq<string>)
  {
    exists values :: |values| == |HoleNames(pattern)| && Fill(pattern, values) == segments
  }

  lemma {:induction false} FilledMatches(pattern: seq<string>, values: seq<string>)
    requires |values| == |HoleNames(pattern)|
    ensures PathMatches(pattern, Fill(pattern, values))
    decreases |pattern|
  {
    if pattern != [] {
      var n := |pattern| - 1;
      HoleMeaning(pattern[n]);
      hide IsParamSegment, IsHole;
      FilledMatches(pattern[..n], if IsHole(pattern[n]) then values[..|values| - 1] else values);
      hide HoleNames;
      OneMoreMatches(pattern, Fill(pattern, values));
    }
  }

  lemma OneMoreMatches(pattern: seq<string>, segments: seq<string>)
    requires |pattern| == |segments| > 0
    requires var n := |pattern| - 1;
             PathMatches(pattern[..n], segments[..n]) && (IsParamSegment(pattern[n]) || pattern[n] == segments[n])
    ensures PathMatches(pattern, segments)
  {
    hide IsParamSegment;
    var n := |pattern| - 1;
    forall i | 0 <= i < n ensures IsParamSegment(pattern[i]) || pattern[i] == segments[i] {
      assert pattern[..n][i] == pattern[i] && segments[..n][i] == segments[i];
    }
  }

  lemma {:induction false} MatchedIsFilled(pattern: seq<string>, segments: seq<string>) returns (values: seq<string>)
    requires PathMatches(pattern, segments)
    ensures |values| == |HoleNames(pattern)| && Fill(pattern, values) == segments
    decreases |pattern|
  {
    values := [];
    if pattern != [] {
      var n := |pattern| - 1;
      HoleMeaning(pattern[n]);
      hide IsParamSegment, IsHole;
      assert PathMatches(pattern[..n], segments[..n]);
      var front := MatchedIsFilled(pattern[..n], segments[..n]);
      values := if IsHole(pattern[n]) then front + [segments[n]] else front;
      assert segments == segments[..n] + [segments[n]];
      assert IsHole(pattern[n]) ==> values[..|values| - 1] == front;
      assert IsHole(pattern[n]) <==> exists name :: pattern[n] == "{" + name + "}" by { HoleMeaning(pattern[n]); }
    }
  }

  /** Matching is substitution: a pattern matches exactly the segments it becomes with values filled in. */
  lemma MatchMeaning(pattern: seq<string>, segments: seq<string>)
    ensures PathMatches(pattern, segments) <==> Fits(pattern, segments)
  {
    if PathMatches(pattern, segments) {
      var values := MatchedIsFilled(pattern, segments);
    }
    if values :| |values| == |HoleNames(pattern)| && Fill(pattern, values) == segments {
      FilledMatches(pattern, values);
    }
  }

  /** `names[j]` does not occur before. */
  predicate FirstNamed(names: seq<string>, j: nat)
  {
    j < |names| && forall i | 0 <= i < j :: names[i] != names[j]
  }

  /** The parameters are the names, each with the value at its first occurrence. */
  ghost predicate Binds(params: Params, names: seq<string>, values: seq<string>)
  {
    && |names| == |values| && (forall name :: name in params <==> name in names)
    && forall j: nat | FirstNamed(names, j) :: params[names[j]] == values[j]
  }

  lemma BindMore(params: Params, names: seq<string>, values: seq<string>, name: string, value: string)
    requires Binds(params, names, values)
    ensures Binds(if name in params then params else params[name := value], names + [name], values + [value])
  {
    var more, longer := names + [name], values + [value];
    var after := if name in params then params else params[name := value];
    forall j: nat | FirstNamed(more, j) ensures more[j] in after && after[more[j]] == longer[j] {
      if j < |names| {
        assert FirstNamed(names, j) by { assert forall i | 0 <= i < j :: more[i] == names[i]; }
      } else {
        assert forall i | 0 <= i < |names| :: more[i] == names[i];
      }
    }
  }

  lemma NothingCaptured(values: seq<string>)
    requires |values| == |HoleNames([])|
    ensures Binds(Captured([], Fill([], values)), HoleNames([]), values)
  {
  }

  lemma CaptureStep(pattern: seq<string>, values: seq<string>)
    requires pattern != [] && |values| == |HoleNames(pattern)|
    ensures var n := |pattern| - 1; var front := if IsHole(pattern[n]) then values[..|values| - 1] else values;
            && (IsHole(pattern[n]) ==> |pattern[n]| >= 2 && values != [])
            && |front| == |HoleNames(pattern[..n])|
            && var before := Captured(pattern[..n], Fill(pattern[..n], front));
               if IsHole(pattern[n]) then
                 var name := pattern[n][1..|pattern[n]| - 1];
                 && HoleNames(pattern) == HoleNames(pattern[..n]) + [name]
                 && Captured(pattern, Fill(pattern, values)) ==
                    if name in before then before else before[name := values[|values| - 1]]
               else
                 HoleNames(pattern) == HoleNames(pattern[..n]) && Captured(pattern, Fill(pattern, values)) == before
  {
    var n := |pattern| - 1;
    var front := if IsHole(pattern[n]) then values[..|values| - 1] else values;
    HoleMeaning(pattern[n]);
    hide IsParamSegment;
    var segments := Fill(pattern, values);
    assert segments[..n] == Fill(pattern[..n], front);
  }

  /** What a route captures: a value for each name, the one filled in at the name's first hole. */
  lemma {:induction false} CaptureMeaning(pattern: seq<string>, values: seq<string>)
    requires |values| == |HoleNames(pattern)|
    ensures Binds(Captured(pattern, Fill(pattern, values)), HoleNames(pattern), values)
    decreases |pattern|
  {
    hide IsHole, Binds, HoleNames, Fill, Captured;
    if pattern != [] {
      var n := |pattern| - 1;
      CaptureStep(pattern, values);
      var front := if IsHole(pattern[n]) then values[..|values| - 1] else values;
      CaptureMeaning(pattern[..n], front);
      if IsHole(pattern[n]) {
        BindMore(Captured(pattern[..n], Fill(pattern[..n], front)), HoleNames(pattern[..n]), front,
                 pattern[n][1..|pattern[n]| - 1], values[|values| - 1]);
        assert values == front + [values[|values| - 1]];
      }
    } else {
      NothingCaptured(values);
    }
  }

  predicate VerbMatches(route: Route, request: HttpRequest)
  {
    if request.verb == "HEAD" then route.verb == "GET" else route.verb == request.verb
  }

  /** The path fits the route's pattern, and the verb is the route's, GET standing in for HEAD. */
  ghost predicate Suits(route: Route, request: HttpRequest)
  {
    Fits(route.segments, SplitPath(request.path)) && route.verb == (if request.verb == "HEAD" then "GET" else request.verb)
  }

  /** Route `i` is the first that suits the request. */
  ghost predicate FirstMatch(routes: seq<Route>, request: HttpRequest, i: nat)
  {
    i < |routes| && Suits(routes[i], request) && forall j | 0 <= j < i :: !Suits(routes[j], request)
  }

  ghost predicate SomePathFits(routes: seq<Route>, path: string)
  {
    exists i :: 0 <= i < |routes| && Fits(routes[i].segments, SplitPath(path))
  }

  function NotAllowed(request: HttpRequest, errorText: ErrorText): HttpResponse
  {
    ErrorResponse(MethodNotAllowed,
                  errorText("METHOD_NOT_ALLOWED",
                            "The " + request.verb + " method is not supported for " + request.path + "."))
  }

  function NoRoute(request: HttpRequest, errorText: ErrorText): HttpResponse
  {
    ErrorResponse(NotFound, errorText("NOT_FOUND", "No route matches " + request.path + "."))
  }

  /** The loop of `dispatch` from route `i` on; `seen` says that an earlier route matched the path. */
  function DispatchFrom(routes: seq<Route>, request: HttpRequest, errorText: ErrorText, i: nat, seen: bool): HttpResponse
    requires i <= |routes|
    decreases |routes| - i
  {
    var segments := SplitPath(request.path);
    if i == |routes| then
      if seen then NotAllowed(request, errorText) else NoRoute(request, errorText)
    else if !PathMatches(routes[i].segments, segments) then DispatchFrom(routes, request, errorText, i + 1, seen)
    else if VerbMatches(routes[i], request) then routes[i].handler(request, Captured(routes[i].segments, segments))
    else DispatchFrom(routes, request, errorText, i + 1, true)
  }

  function Dispatch(routes: seq<Route>, request: HttpRequest, errorText: ErrorText): HttpResponse
  {
    DispatchFrom(routes, request, errorText, 0, false)
  }

  /** An error response: the status, and the text as JSON with its length. */
  ghost predicate IsError(r: HttpResponse, status: HttpStatus, text: string)
  {
    && r.status == status && r.body == Full(text)
    && r.headers.Keys == {"Content-Type", "Content-Length"}
    && r.headers["Content-Type"] == "application/json" && Numeral(r.headers["Content-Length"], |text|)
  }

  lemma ErrorIsError(status: HttpStatus, text: string)
    ensures IsError(ErrorResponse(status, text), status, text)
  {
    hide ToText, Value;
    ValueToText(|text|);
  }

  /** What the documentation asks of `dispatch`. */
  ghost predicate RoutedRight(routes: seq<Route>, request: HttpRequest, errorText: ErrorText, r: HttpResponse)
  {
    if exists k: nat :: FirstMatch(routes, request, k) then
      exists k: nat :: FirstMatch(routes, request, k) &&
        r == routes[k].handler(request, Captured(routes[k].segments, SplitPath(request.path)))
    else if SomePathFits(routes, request.path) then
      IsError(r, MethodNotAllowed,
              errorText("METHOD_NOT_ALLOWED",
                        "The " + request.verb + " method is not supported for " + request.path + "."))
    else IsError(r, NotFound, errorText("NOT_FOUND", "No route matches " + request.path + "."))
  }

  lemma {:induction false} DispatchFromMeaning(routes: seq<Route>, request: HttpRequest, errorText: ErrorText, i: nat, seen: bool)
    requires i <= |routes|
    requires seen <==> exists j :: 0 <= j < i && Fits(routes[j].segments, SplitPath(request.path))
    requires forall j | 0 <= j < i :: !Suits(routes[j], request)
    ensures RoutedRight(routes, request, errorText, DispatchFrom(routes, request, errorText, i, seen))
    decreases |routes| - i
  {
    hide SplitPath, NotAllowed, NoRoute, Captured, PathMatches, Fits, IsError;
    var segments := SplitPath(request.path);
    if i < |routes| {
      MatchMeaning(routes[i].segments, segments);
      if !PathMatches(routes[i].segments, segments) {
        DispatchFromMeaning(routes, request, errorText, i + 1, seen);
      } else if VerbMatches(routes[i], request) {
        assert FirstMatch(routes, request, i);
      } else {
        DispatchFromMeaning(routes, request, errorText, i + 1, true);
      }
    } else {
      NoRouteIsError(request, errorText);
    }
  }

  lemma NoRouteIsError(request: HttpRequest, errorText: ErrorText)
    ensures IsError(NotAllowed(request, errorText), MethodNotAllowed,
                    errorText("METHOD_NOT_ALLOWED",
                              "The " + request.verb + " method is not supported for " + request.path + "."))
    ensures IsError(NoRoute(request, errorText), NotFound,
                    errorText("NOT_FOUND", "No route matches " + request.path + "."))
  {
    hide IsError;
    ErrorIsError(MethodNotAllowed,
                 errorText("METHOD_NOT_ALLOWED",
                           "The " + request.verb + " method is not supported for " + request.path + "."));
    ErrorIsError(NotFound, errorText("NOT_FOUND", "No route matches " + request.path + "."));
  }

  /** The first route that matches path and verb handles the request; failing that the answer is 405
      if some route has the path and 404 otherwise. */
  lemma DispatchMeaning(routes: seq<Route>, request: HttpRequest, errorText: ErrorText)
    ensures RoutedRight(routes, request, errorText, Dispatch(routes, request, errorText))
  {
    DispatchFromMeaning(routes, request, errorText, 0, false);
  }

  lemma {:induction false} NoHoles(pattern: seq<string>)
    requires forall s | s in pattern :: !IsHole(s)
    ensures HoleNames(pattern) == [] && Fill(pattern, []) == pattern && Captured(pattern, pattern) == map[]
    decreases |pattern|
  {
    if pattern != [] {
      var n := |pattern| - 1;
      hide IsHole;
      NoHoles(pattern[..n]);
      assert !IsHole(pattern[n]);
      HoleMeaning(pattern[n]);
      assert pattern == pattern[..n] + [pattern[n]];
      NoHole(pattern[n]);
    }
  }

  lemma NoHole(segment: string)
    requires !IsHole(segment)
    ensures forall name :: segment != "{" + name + "}"
  {
  }

  lemma LiteralFits(pattern: seq<string>, segments: seq<string>)
    requires forall s | s in pattern :: !IsHole(s)
    ensures Fits(pattern, segments) <==> pattern == segments
  {
    hide IsHole, HoleNames, Fill;
    NoHoles(pattern);
    var none: seq<string> := [];
    assert Fill(pattern, none) == pattern;
    if values :| |values| == |HoleNames(pattern)| && Fill(pattern, values) == segments {
      assert values == none;
    }
  }

  /** The route with these very segments and the verb answers; without one the status is 405 or 404. */
  ghost predicate RoutedLiterally(routes: seq<Route>, request: HttpRequest, segments: seq<string>, r: HttpResponse)
  {
    var verb := if request.verb == "HEAD" then "GET" else request.verb;
    && (forall k | 0 <= k < |routes| && routes[k].segments == segments && routes[k].verb == verb ::
          r == routes[k].handler(request, map[]))
    && ((forall k | 0 <= k < |routes| :: routes[k].segments != segments) ==> r.status == NotFound)
    && ((exists k :: 0 <= k < |routes| && routes[k].segments == segments) &&
        (forall k | 0 <= k < |routes| && routes[k].segments == segments :: routes[k].verb != verb) ==>
          r.status == MethodNotAllowed)
  }

  /** On a table of literal paths, the request for some segments goes to the route registered for exactly
      these and the verb, and gets 405 or 404 when there is none. */
  lemma LiteralDispatch(routes: seq<Route>, request: HttpRequest, errorText: ErrorText, segments: seq<string>)
    requires NoDuplicates(routes) && forall j, s | 0 <= j < |routes| && s in routes[j].segments :: !IsHole(s)
    requires request.path == JoinPath(segments) && forall s | s in segments :: s != "" && SlashFree(s)
    ensures RoutedLiterally(routes, request, segments, Dispatch(routes, request, errorText))
  {
    SplitJoin("", segments);
    assert "" + JoinPath(segments) == JoinPath(segments);
    DispatchMeaning(routes, request, errorText);
    hide SplitFrom, JoinPath, Dispatch, IsHole, Captured, Fits, SlashFree, RoutedRight, NoDuplicates;
    forall k: nat | k < |routes|
      ensures Fits(routes[k].segments, segments) <==> routes[k].segments == segments
      ensures Captured(routes[k].segments, routes[k].segments) == map[]
    {
      LiteralFits(routes[k].segments, segments);
      NoHoles(routes[k].segments);
    }
    OneRouteSuits(routes, request, errorText, segments, Dispatch(routes, request, errorText));
  }

  lemma OneRouteSuits(routes: seq<Route>, request: HttpRequest, errorText: ErrorText, segments: seq<string>, r: HttpResponse)
    requires NoDuplicates(routes) && RoutedRight(routes, request, errorText, r) && SplitPath(request.path) == segments
    requires forall k: nat | k < |routes| :: (Fits(routes[k].segments, segments) <==> routes[k].segments == segments)
    requires forall k: nat | k < |routes| :: Captured(routes[k].segments, routes[k].segments) == map[]
    ensures RoutedLiterally(routes, request, segments, r)
  {
    hide SplitPath, Captured, Fits;
    forall k: nat | k < |routes| && Suits(routes[k], request) ensures FirstMatch(routes, request, k) {
    }
    forall i: nat, k: nat | FirstMatch(routes, request, i) && FirstMatch(routes, request, k) ensures i == k {
    }
  }

  /** The handler does not look at the verb. */
  ghost predicate IgnoresVerb(h: Handler)
  {
    forall request: HttpRequest, params: Params, verb: string :: h(request.(verb := verb), params) == h(request, params)
  }

  lemma {:induction false} HeadIsGetFrom(routes: seq<Route>, request: HttpRequest, errorText: ErrorText, i: nat, seen: bool)
    requires i <= |routes| && request.verb == "HEAD"
    requires exists j :: i <= j < |routes| && routes[j].verb == "GET" && PathMatches(routes[j].segments, SplitPath(request.path))
    requires forall j | 0 <= j < |routes| :: IgnoresVerb(routes[j].handler)
    ensures DispatchFrom(routes, request, errorText, i, seen) ==
            DispatchFrom(routes, request.(verb := "GET"), errorText, i, seen)
    decreases |routes| - i
  {
    hide SplitPath, Captured;
    var get := request.(verb := "GET");
    var segments := SplitPath(request.path);
    if !(PathMatches(routes[i].segments, segments) && routes[i].verb == "GET") {
      HeadIsGetFrom(routes, request, errorText, i + 1, seen || PathMatches(routes[i].segments, segments));
    }
  }

  /** HEAD is answered by the GET route of the same path, with the response GET would have had,
      whether or not some route was registered for HEAD itself. */
  lemma HeadIsGet(routes: seq<Route>, request: HttpRequest, errorText: ErrorText)
    requires request.verb == "HEAD"
    requires exists j :: 0 <= j < |routes| && routes[j].verb == "GET" && Fits(routes[j].segments, SplitPath(request.path))
    requires forall j | 0 <= j < |routes| :: IgnoresVerb(routes[j].handler)
    ensures Dispatch(routes, request, errorText) == Dispatch(routes, request.(verb := "GET"), errorText)
  {
    hide DispatchFrom, SplitPath, Fits, PathMatches, IgnoresVerb;
    var j :| 0 <= j < |routes| && routes[j].verb == "GET" && Fits(routes[j].segments, SplitPath(request.path));
    MatchMeaning(routes[j].segments, SplitPath(request.path));
    HeadIsGetFrom(routes, request, errorText, 0, false);
  }

  // ---------------------------------------------------------------------------------------------
  // The class
  // ---------------------------------------------------------------------------------------------

  ghost predicate NoDuplicates(routes: seq<Route>)
  {
    forall i, j | 0 <= i < j < |routes| ::
      !(routes[i].verb == routes[j].verb && routes[i].segments == routes[j].segments)
  }

  class PathRouter {
    var routes: seq<Route>

    constructor ()
      ensures routes == []
    {
      routes := [];
    }

    /** `false` stands for the exception on a duplicate; the table is then unchanged. */
    method AddRoute(verb: string, pattern: string, handler: Handler) returns (ok: bool)
      modifies this
      ensures ok <==> forall r | r in old(routes) :: !(r.verb == verb && r.segments == SplitPath(pattern))
      ensures routes == if ok then old(routes) + [Route(verb, SplitPath(pattern), handler)] else old(routes)
      ensures old(NoDuplicates(routes)) ==> NoDuplicates(routes)
    {
      var segments := SplitPathLoop(pattern);
      for i := 0 to |routes|
        invariant routes == old(routes)
        invariant forall j | 0 <= j < i :: !(routes[j].verb == verb && routes[j].segments == segments)
      {
        if routes[i].verb == verb && routes[i].segments == segments {
          assert routes[i] in routes;
          return false;
        }
      }
      routes := routes + [Route(verb, segments, handler)];
      return true;
    }

    method MatchRoute(pattern: seq<string>, segments: seq<string>) returns (matched: bool, params: Params)
      requires |pattern| == |segments|
      ensures matched == PathMatches(pattern, segments)
      ensures matched ==> params == Captured(pattern, segments)
    {
      params, matched := map[], true;
      assert pattern[..0] == [] && segments[..0] == [];
      for i := 0 to |pattern|
        invariant forall j | 0 <= j < i :: IsParamSegment(pattern[j]) || pattern[j] == segments[j]
        invariant params == Captured(pattern[..i], segments[..i])
      {
        assert pattern[..i + 1][..i] == pattern[..i] && segments[..i + 1][..i] == segments[..i];
        if IsParamSegment(pattern[i]) {
          var name := pattern[i][1..|pattern[i]| - 1];
          if name !in params {
            params := params[name := segments[i]];
          }
        } else if pattern[i] != segments[i] {
          return false, params;
        }
      }
      assert pattern[..|pattern|] == pattern && segments[..|pattern|] == segments;
    }

    method DispatchRequest(request: HttpRequest, errorText: ErrorText) returns (r: HttpResponse)
      ensures r == Dispatch(routes, request, errorText)
    {
      var isHead := request.verb == "HEAD";
      var requestSegments := SplitPathLoop(request.path);
      var pathMatchedSomeMethod := false;
      for i := 0 to |routes|
        invariant Dispatch(routes, request, errorText) == DispatchFrom(routes, request, errorText, i, pathMatchedSomeMethod)
      {
        var route := routes[i];
        if |route.segments| != |requestSegments| { continue; }
        var matched, params := MatchRoute(route.segments, requestSegments);
        if !matched { continue; }
        var verbMatches := if isHead then route.verb == "GET" else route.verb == request.verb;
        if verbMatches {
          return route.handler(request, params);
        }
        pathMatchedSomeMethod := true;
      }
      if pathMatchedSomeMethod {
        return NotAllowed(request, errorText);
      }
      return NoRoute(request, errorText);
    }
  }
}
