/** GET /api/v1/tracks/{id}/stream: from the `Range` header to the bytes on the wire. */
module StreamRoute {
  import opened Common
  import opened Decimal
  import opened FileStream
  import opened Range
  import opened TcpConnection
  import opened HttpResponse
  import opened Router

  /** What the route reads: live tracks' absolute paths, the regular files that open, codecs by track id. */
  datatype Catalog = Catalog(paths: map<nat, string>, files: map<string, string>, codecs: map<nat, string>)
  {
    /** File sizes are `off_t` values. */
    predicate Valid() { forall p | p in files :: |files[p]| <= I64_MAX }
  }

  function ParseId(raw: string): Option<nat>
  {
    if raw != "" && AllDigits(raw) && 0 < Value(raw) <= I64_MAX then Some(Value(raw)) else None
  }

  function MimeType(codec: string): string
  {
    if codec == "mp3" then "audio/mpeg"
    else if codec == "flac" then "audio/flac"
    else if codec == "wav" then "audio/wav"
    else if codec == "m4a" then "audio/mp4"
    else if codec == "aac" then "audio/aac"
    else "application/octet-stream"
  }

  function ContentRange(start: nat, end: nat, size: nat): string
  {
    "bytes " + ToText(start) + "-" + ToText(end) + "/" + ToText(size)
  }

  function FileHeaders(codec: string, length: nat): map<string, string>
  {
    map["Content-Type" := MimeType(codec), "Accept-Ranges" := "bytes", "Content-Length" := ToText(length)]
  }

  function CodecOf(cat: Catalog, id: nat): string
  {
    if id in cat.codecs then cat.codecs[id] else ""
  }

  /** The response for an open file, by outcome of the range parser. */
  function FileResponse(codec: string, file: string, range: RangeResult, errorText: ErrorText): HttpResponse
  {
    match range
    case NoRangeHeader => HttpResponse(Ok, FileHeaders(codec, |file|), Streaming(Stream(file, 0, |file|)))
    case Satisfiable(start, end) =>
      if start <= end < |file| then
        HttpResponse(PartialContent,
                     FileHeaders(codec, end - start + 1)["Content-Range" := ContentRange(start, end, |file|)],
                     Streaming(Stream(file, start, end - start + 1)))
      else ErrorResponse(InternalServerError, errorText("INTERNAL_ERROR", "The track range could not be opened."))
    case NotSatisfiable =>
      var r := ErrorResponse(RangeNotSatisfiable,
                             errorText("RANGE_NOT_SATISFIABLE", "The requested range is not satisfiable."));
      r.(headers := r.headers["Content-Range" := "bytes */" + ToText(|file|)])
  }

  function StreamResponse(cat: Catalog, idText: string, range: Option<string>, errorText: ErrorText): HttpResponse
  {
    var id := ParseId(idText);
    if id.None? then ErrorResponse(BadRequest, errorText("BAD_REQUEST", "invalid track id"))
    else if id.value !in cat.paths then
      ErrorResponse(NotFound, errorText("TRACK_NOT_FOUND", "The requested track does not exist."))
    else if cat.paths[id.value] !in cat.files then
      ErrorResponse(InternalServerError, errorText("INTERNAL_ERROR", "The track file could not be opened."))
    else
      var file := cat.files[cat.paths[id.value]];
      FileResponse(CodecOf(cat, id.value), file, RangeOf(if range.None? then "" else range.value, |file|), errorText)
  }

  /** The handler, as far as the open file. */
  method StreamTrack(cat: Catalog, idText: string, range: Option<string>, errorText: ErrorText)
    returns (r: HttpResponse, body: FileRangeResponseBody?)
    requires cat.Valid()
    ensures r == StreamResponse(cat, idText, range, errorText)
    ensures r.body.Streaming? ==>
              body != null && fresh(body) && body.View() == r.body.stream && r.Valid() && |body.file| <= U64_MAX
  {
    hide ParseId, FileResponse, RangeOf;
    body := null;
    var id := ParseId(idText);
    if id.None? { return ErrorResponse(BadRequest, errorText("BAD_REQUEST", "invalid track id")), null; }
    if id.value !in cat.paths {
      return ErrorResponse(NotFound, errorText("TRACK_NOT_FOUND", "The requested track does not exist.")), null;
    }
    if cat.paths[id.value] !in cat.files {
      return ErrorResponse(InternalServerError, errorText("INTERNAL_ERROR", "The track file could not be opened.")), null;
    }
    var source := new FileStreamSource(cat.files[cat.paths[id.value]]);
    r, body := StreamFile(source, CodecOf(cat, id.value), if range.None? then "" else range.value, errorText);
  }

  /** The handler from the open file on: `openRange` is called with a window that always fits, so its
      error branch is dead, and all the 64-bit arithmetic stays in range. */
  method StreamFile(source: FileStreamSource, codec: string, header: string, errorText: ErrorText)
    returns (r: HttpResponse, body: FileRangeResponseBody?)
    requires source.Valid() && |source.file| <= I64_MAX
    ensures r == FileResponse(codec, source.file, RangeOf(header, |source.file|), errorText)
    ensures r.body.Streaming? ==>
              body != null && fresh(body) && body.View() == r.body.stream && r.Valid() && |body.file| <= U64_MAX
  {
    hide ContentRange, RangeOf, ErrorResponse, FileHeaders;
    body := null;
    var fileSize := source.size;
    var result := ParseRange(header, fileSize);
    if result.NotSatisfiable? {
      r := ErrorResponse(RangeNotSatisfiable,
                         errorText("RANGE_NOT_SATISFIABLE", "The requested range is not satisfiable."));
      r := r.(headers := r.headers["Content-Range" := "bytes */" + ToText(fileSize as int)]);
      ErrorIsFull(RangeNotSatisfiable, errorText("RANGE_NOT_SATISFIABLE", "The requested range is not satisfiable."));
      return;
    }
    var start: u64, length: u64 := 0, fileSize;
    var status := Ok;
    if result.Satisfiable? {
      RangeMeaning(header, fileSize as int, result.start, result.end);
      start := result.start as u64;
      length := result.end as u64 - start + 1;
      status := PartialContent;
    }
    body := source.OpenRange(start, length);
    var headers := FileHeaders(codec, length as int);
    if status == PartialContent {
      var last := start + length - 1;
      headers := headers["Content-Range" := ContentRange(start as int, last as int, fileSize as int)];
    }
    r := HttpResponse(status, headers, Streaming(Stream(source.file, start as int, length as int)));
  }

  lemma ErrorIsFull(status: HttpStatus, text: string)
    ensures ErrorResponse(status, text).body == Full(text)
  {
  }

  // ---------------------------------------------------------------------------------------------
  // End to end
  // ---------------------------------------------------------------------------------------------

  /** "bytes a-b/c" for a range of positions and a size. */
  ghost predicate SaysRange(text: string, start: nat, end: nat, size: nat)
  {
    exists a, b, c :: Numeral(a, start) && Numeral(b, end) && Numeral(c, size) && text == "bytes " + a + "-" + b + "/" + c
  }

  ghost predicate SaysSize(text: string, size: nat)
  {
    exists c :: Numeral(c, size) && text == "bytes */" + c
  }

  /** The media types of the codecs. */
  predicate IsTypeOf(text: string, codec: string)
  {
    || (codec, text) in {("mp3", "audio/mpeg"), ("flac", "audio/flac"), ("wav", "audio/wav"),
                         ("m4a", "audio/mp4"), ("aac", "audio/aac")}
    || (codec !in {"mp3", "flac", "wav", "m4a", "aac"} && text == "application/octet-stream")
  }

  /** The headers tell the length of the body, the media type, and that ranges are served. */
  ghost predicate Describes(r: HttpResponse, codec: string)
    requires r.Valid()
  {
    && "Content-Length" in r.headers && Numeral(r.headers["Content-Length"], |r.BodyBytes()|)
    && "Content-Type" in r.headers && IsTypeOf(r.headers["Content-Type"], codec)
    && "Accept-Ranges" in r.headers && r.headers["Accept-Ranges"] == "bytes"
  }

  /** The body and the headers agree with the range: exactly file[start..end], its length, its position. */
  ghost predicate Delivers(r: HttpResponse, codec: string, file: string, start: nat, end: nat)
  {
    && start <= end < |file|
    && r.status == PartialContent
    && r.Valid() && r.BodyBytes() == file[start..end + 1] && Describes(r, codec)
    && "Content-Range" in r.headers && SaysRange(r.headers["Content-Range"], start, end, |file|)
  }

  /** A range that is not there is refused, and the size told. */
  ghost predicate RefusesRange(r: HttpResponse, size: nat, text: string)
  {
    && r.status == RangeNotSatisfiable && r.body == Full(text)
    && "Content-Range" in r.headers && SaysSize(r.headers["Content-Range"], size)
  }

  lemma PrintedRange(start: nat, end: nat, size: nat)
    ensures SaysRange(ContentRange(start, end, size), start, end, size)
    ensures SaysSize("bytes */" + ToText(size), size)
  {
    hide ToText, Numeral;
    PrintedNumeral(start);
    PrintedNumeral(end);
    PrintedNumeral(size);
  }

  lemma FileHeadersDescribe(codec: string, length: nat)
    ensures var h := FileHeaders(codec, length);
            && "Content-Length" in h && Numeral(h["Content-Length"], length)
            && "Content-Type" in h && IsTypeOf(h["Content-Type"], codec)
            && "Accept-Ranges" in h && h["Accept-Ranges"] == "bytes"
  {
    hide ToText, Numeral;
    PrintedNumeral(length);
  }

  lemma FileRangeDelivers(codec: string, file: string, start: nat, end: nat, errorText: ErrorText)
    requires start <= end < |file|
    ensures Delivers(FileResponse(codec, file, Satisfiable(start, end), errorText), codec, file, start, end)
  {
    PrintedRange(start, end, |file|);
    FileHeadersDescribe(codec, end - start + 1);
    hide FileHeaders, ContentRange, SaysRange, Numeral, IsTypeOf;
  }

  lemma UnsatisfiableResponse(codec: string, file: string, errorText: ErrorText)
    ensures RefusesRange(FileResponse(codec, file, NotSatisfiable, errorText), |file|,
                         errorText("RANGE_NOT_SATISFIABLE", "The requested range is not satisfiable."))
  {
    PrintedRange(0, 0, |file|);
  }

  /** A track id as a request may spell it: a positive number of 63 bits. */
  predicate SpellsId(idText: string, id: nat)
  {
    Numeral(idText, id) && 0 < id < 0x8000_0000_0000_0000
  }

  /** The text is the number of a track, live, whose file opens. */
  predicate NamesFile(cat: Catalog, idText: string, id: nat)
  {
    SpellsId(idText, id) && id in cat.paths && cat.paths[id] in cat.files
  }

  function FileOf(cat: Catalog, id: nat): string
    requires id in cat.paths && cat.paths[id] in cat.files
  {
    cat.files[cat.paths[id]]
  }

  /** The codec the track's row holds, if it has one. */
  predicate HasCodec(cat: Catalog, id: nat, codec: string)
  {
    (id in cat.codecs && cat.codecs[id] == codec) || (id !in cat.codecs && codec == "")
  }

  lemma NamedIsParsed(cat: Catalog, idText: string, id: nat)
    requires NamesFile(cat, idText, id)
    ensures ParseId(idText) == Some(id) && SlashFree(idText) && idText != ""
  {
  }

  /** Which requests for a stream fail, and how: 400 if the text spells no id, 404 if there is no such live
      track, 500 if its file does not open, each with its JSON text; and otherwise never with these. */
  lemma StreamErrors(cat: Catalog, idText: string, range: Option<string>, errorText: ErrorText)
    ensures var r := StreamResponse(cat, idText, range, errorText);
            && (if exists id: nat :: SpellsId(idText, id) then
                  forall id: nat | SpellsId(idText, id) ::
                    && (id !in cat.paths ==>
                          IsError(r, NotFound, errorText("TRACK_NOT_FOUND", "The requested track does not exist.")))
                    && (id in cat.paths && cat.paths[id] !in cat.files ==>
                          IsError(r, InternalServerError, errorText("INTERNAL_ERROR", "The track file could not be opened.")))
                    && (id in cat.paths && cat.paths[id] in cat.files ==>
                          r.status in {Ok, PartialContent, RangeNotSatisfiable})
                else IsError(r, BadRequest, errorText("BAD_REQUEST", "invalid track id")))
  {
    hide RangeOf, Value, MimeType, ToText, AllDigits, IsError;
    ErrorIsError(NotFound, errorText("TRACK_NOT_FOUND", "The requested track does not exist."));
    ErrorIsError(InternalServerError, errorText("INTERNAL_ERROR", "The track file could not be opened."));
    ErrorIsError(BadRequest, errorText("BAD_REQUEST", "invalid track id"));
    var id := ParseId(idText);
    if id.Some? {
      assert SpellsId(idText, id.value);
      if id.value in cat.paths && cat.paths[id.value] in cat.files {
        var file := FileOf(cat, id.value);
        var header := if range.None? then "" else range.value;
        var result := RangeOf(header, |file|);
        if result.Satisfiable? {
          RangeMeaning(header, |file|, result.start, result.end);
        }
      }
    }
  }

  /** For every range header that names one byte range: 206 with the selected bytes when the RFC calls
      it satisfiable and its numbers fit 64 bits, 416 with the size otherwise. */
  lemma RangedResponse(cat: Catalog, idText: string, id: nat, codec: string, header: string, spec: RangeSpec,
                       errorText: ErrorText)
    requires NamesFile(cat, idText, id) && HasCodec(cat, id, codec) && Denotes(header, spec)
    ensures var file := FileOf(cat, id);
            var r := StreamResponse(cat, idText, Some(header), errorText);
            var selected := Selects(spec, |file|);
            if FitsU64(spec) && selected.Some?
            then Delivers(r, codec, file, selected.value.0, selected.value.1)
            else RefusesRange(r, |file|, errorText("RANGE_NOT_SATISFIABLE", "The requested range is not satisfiable."))
  {
    NamedIsParsed(cat, idText, id);
    hide ParseId, Denotes, RangeOf, FileResponse, Delivers, Selects, FitsU64, Numeral, RefusesRange;
    var file := FileOf(cat, id);
    var selected := Selects(spec, |file|);
    DenotedRange(header, spec, |file|);
    if FitsU64(spec) && selected.Some? {
      RangeMeaning(header, |file|, selected.value.0, selected.value.1);
      FileRangeDelivers(codec, file, selected.value.0, selected.value.1, errorText);
    } else {
      UnsatisfiableResponse(codec, file, errorText);
    }
  }

  /** Without a range header the whole file is delivered; with one, never a server error. */
  lemma WholeFileResponse(cat: Catalog, idText: string, id: nat, codec: string, range: Option<string>, errorText: ErrorText)
    requires NamesFile(cat, idText, id) && HasCodec(cat, id, codec)
    ensures var file := FileOf(cat, id);
            var r := StreamResponse(cat, idText, range, errorText);
            && r.Valid()
            && (range == None || range == Some("") ==>
                  r.status == Ok && r.BodyBytes() == file && Describes(r, codec) &&
                  "Content-Range" !in r.headers)
            && r.status != InternalServerError
  {
    NamedIsParsed(cat, idText, id);
    hide ParseId, RangeOf, Numeral, IsTypeOf;
    var file := FileOf(cat, id);
    FileHeadersDescribe(codec, |file|);
    var header := if range.None? then "" else range.value;
    var result := RangeOf(header, |file|);
    if result.Satisfiable? {
      RangeMeaning(header, |file|, result.start, result.end);
    } else {
      RangeMeaning(header, |file|, 0, 0);
    }
    assert file[0..|file|] == file;
    hide MimeType, ToText;
  }

  /** Ranged streaming end to end: whatever the file, the range, the short reads and the partial sends,
      the wire holds at any time a prefix of head ++ file[start..end], and all of it once the kernel
      has taken bytes often enough. */
  lemma RangedStreaming(codec: string, file: string, start: nat, end: nat, r: HttpResponse, keys: seq<string>, inputs: seq<FlushInput>)
    requires Delivers(r, codec, file, start, end)
    requires forall k | k in keys :: k in WireHeaders(r)
    ensures var c := FlushAll(WriteResponseOf(NEW_CONNECTION, r, keys, false), inputs);
            var bytes := Head(r, keys) + file[start..end + 1];
            && c.wire + c.Pending() == bytes
            && ((forall i | 0 <= i < |inputs| :: AcceptsSome(inputs[i].send)) && |inputs| > |bytes| ==> c.wire == bytes)
  {
    hide Head, FlushAll, WireHeaders, WriteResponseOf;
    WriteResponsePending(NEW_CONNECTION, r, keys, false);
    var c := WriteResponseOf(NEW_CONNECTION, r, keys, false);
    var bytes := Head(r, keys) + file[start..end + 1];
    assert c.wire + c.Pending() == bytes;
    StreamingBound(c, inputs, |c.Queued()| + |c.outbound.storage| + 2 * READ_CHUNK);
    if (forall i | 0 <= i < |inputs| :: AcceptsSome(inputs[i].send)) && |inputs| > |bytes| {
      FlushesDrain(c, inputs);
    }
  }
}
