/** A window [offset, offset + length) of an open file, read in pieces by `pread`. */
module FileStream {
  import opened Common

  newtype u64 = x: int | 0 <= x <= U64_MAX

  /** What a `FileRangeResponseBody` will still deliver. `file` is the file's content. */
  datatype Stream = Stream(file: string, cursor: nat, remaining: nat)
  {
    predicate Valid() { cursor + remaining <= |file| }

    function Rest(): string
      requires Valid()
    {
      file[cursor..cursor + remaining]
    }
  }

  /** The kernel's answer to `pread(toRead)` at `cursor`: at least one byte and at most what is asked
      for and what the file holds, and zero only at the end of the file. `got` is its free choice. */
  function PreadBytes(file: string, cursor: nat, toRead: nat, got: nat): (n: nat)
    ensures n <= toRead && cursor + n <= Max(cursor, |file|)
    ensures n == 0 <==> toRead == 0 || cursor >= |file|
  {
    if toRead == 0 || cursor >= |file| then 0
    else Min(Max(got, 1), Min(toRead, |file| - cursor))
  }

  /** `read`: the bytes handed over and the stream afterwards. */
  function Read(s: Stream, want: nat, got: nat): (string, Stream)
  {
    var toRead := Min(want, s.remaining);
    if toRead == 0 then ("", s)
    else
      var n := PreadBytes(s.file, s.cursor, toRead, got);
      if n == 0 then ("", s.(remaining := 0))
      else (s.file[s.cursor..s.cursor + n], s.(cursor := s.cursor + n, remaining := s.remaining - n))
  }

  /** Reading hands over the next bytes of the window, none lost and none twice, and only an empty
      window (or an empty destination) yields nothing. */
  lemma ReadConserves(s: Stream, want: nat, got: nat)
    requires s.Valid()
    ensures var (data, t) := Read(s, want, got);
            && t.Valid()
            && data + t.Rest() == s.Rest()
            && |data| <= want
            && (data == "" <==> want == 0 || s.remaining == 0)
            && t.remaining == s.remaining - |data|
  {
    var (data, t) := Read(s, want, got);
    if data != "" {
      assert s.file[s.cursor..t.cursor] + s.file[t.cursor..t.cursor + t.remaining] == s.Rest();
    }
  }

  class FileRangeResponseBody {
    const file: string
    var cursor: u64
    var remaining: u64

    ghost function View(): Stream
      reads this
    {
      Stream(file, cursor as int, remaining as int)
    }

    constructor (file: string, offset: u64, length: u64)
      ensures this.file == file && View() == Stream(file, offset as int, length as int)
    {
      this.file := file;
      cursor, remaining := offset, length;
    }

    method ReadInto(want: nat, got: nat) returns (data: string)
      requires |file| <= U64_MAX
      modifies this
      ensures (data, View()) == Read(old(View()), want, got)
    {
      if remaining == 0 || want == 0 { return ""; }
      var toRead := want;
      if toRead > remaining as int {
        toRead := remaining as int;
      }
      var n := PreadBytes(file, cursor as int, toRead, got);
      if n == 0 {
        remaining := 0;
        return "";
      }
      data := file[cursor as int..cursor as int + n];
      cursor := cursor + n as u64;
      remaining := remaining - n as u64;
    }
  }

  class FileStreamSource {
    const file: string
    const size: u64

    ghost predicate Valid() { size as int == |file| }

    constructor (file: string)
      requires |file| <= I64_MAX
      ensures Valid() && this.file == file
    {
      this.file := file;
      size := |file| as u64;
    }

    /** `None` stands for the exception: exactly when the window leaves the file. */
    method OpenRange(offset: u64, length: u64) returns (body: FileRangeResponseBody?)
      requires Valid()
      ensures body == null <==> offset as int + length as int > |file|
      ensures body != null ==>
                fresh(body) && body.file == file && body.View() == Stream(file, offset as int, length as int) &&
                body.View().Valid()
    {
      if offset > size || length > size - offset { return null; }
      body := new FileRangeResponseBody(file, offset, length);
    }
  }
}
