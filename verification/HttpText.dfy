/** The text helpers of the request parser: percent-decoding, trimming, lower-casing, and the two
    line grammars. Each loop of the source is a method proved equal to the function that specifies it. */
module HttpText {
  import opened Common
  import opened Decimal

  /** A fully parsed request; header keys are lower-cased. */
  datatype HttpRequest = HttpRequest(
    verb: string, path: string, query: string, version: string,
    headers: map<string, string>, body: string)

  const EmptyRequest := HttpRequest("", "", "", "", map[], "")

  predicate IsHexDigit(c: char)
  {
    '0' <= c <= '9' || 'a' <= c <= 'f' || 'A' <= c <= 'F'
  }

  function HexValue(c: char): (v: nat)
    requires IsHexDigit(c)
    ensures v < 16
  {
    if '0' <= c <= '9' then (c as int) - ('0' as int)
    else if 'a' <= c <= 'f' then (c as int) - ('a' as int) + 10
    else (c as int) - ('A' as int) + 10
  }

  /** Undoes "%XX" escapes; `None` on a truncated or malformed escape. '+' is an ordinary character. */
  function PercentDecode(s: string): Option<string>
  {
    if s == "" then Some("")
    else if s[0] == '%' then
      if |s| < 3 || !IsHexDigit(s[1]) || !IsHexDigit(s[2]) then None
      else Prepend((16 * HexValue(s[1]) + HexValue(s[2])) as char, PercentDecode(s[3..]))
    else Prepend(s[0], PercentDecode(s[1..]))
  }

  function Prepend(c: char, rest: Option<string>): Option<string>
  {
    if rest.None? then None else Some([c] + rest.value)
  }

  function PrependAll(front: string, rest: Option<string>): Option<string>
  {
    if rest.None? then None else Some(front + rest.value)
  }

  method PercentDecodeLoop(s: string) returns (r: Option<string>)
    ensures r == PercentDecode(s)
  {
    var out := "";
    var i := 0;
    assert s[0..] == s;
    assert forall t: string :: "" + t == t;
    while i < |s|
      invariant 0 <= i <= |s|
      invariant PercentDecode(s) == PrependAll(out, PercentDecode(s[i..]))
    {
      var c := s[i];
      ghost var before := out;
      if c == '%' {
        if i + 2 >= |s| || !IsHexDigit(s[i + 1]) || !IsHexDigit(s[i + 2]) {
          return None;
        }
        assert s[i..][3..] == s[i + 3..];
        out := out + [(16 * HexValue(s[i + 1]) + HexValue(s[i + 2])) as char];
        i := i + 2;
      } else {
        assert s[i..][1..] == s[i + 1..];
        out := out + [c];
      }
      i := i + 1;
      assert forall t :: before + ([out[|before|]] + t) == out + t;
    }
    assert PercentDecode(s[|s|..]) == Some("") && out + "" == out;
    return Some(out);
  }

  predicate IsOws(c: char) { c == ' ' || c == '\t' }

  function TrimLeft(s: string): (t: string)
    ensures t == "" || !IsOws(t[0])
  {
    if s != "" && IsOws(s[0]) then TrimLeft(s[1..]) else s
  }

  function TrimRight(s: string): (t: string)
    ensures t == "" || !IsOws(t[|t| - 1])
  {
    if s != "" && IsOws(s[|s| - 1]) then TrimRight(s[..|s| - 1]) else s
  }

  function TrimOws(s: string): string
  {
    TrimRight(TrimLeft(s))
  }

  method TrimOwsLoop(s: string) returns (t: string)
    ensures t == TrimOws(s)
  {
    var start := 0;
    assert s[0..] == s;
    while start < |s| && IsOws(s[start])
      invariant 0 <= start <= |s|
      invariant TrimLeft(s) == TrimLeft(s[start..])
    {
      assert s[start..][1..] == s[start + 1..];
      start := start + 1;
    }
    assert TrimLeft(s) == s[start..];
    var end := |s|;
    assert s[start..end] == s[start..];
    while end > start && IsOws(s[end - 1])
      invariant start <= end <= |s|
      invariant TrimRight(s[start..]) == TrimRight(s[start..end])
    {
      assert s[start..end][..end - start - 1] == s[start..end - 1];
      end := end - 1;
    }
    t := s[start..end];
  }

  /** `std::tolower` of the "C" locale. */
  function LowerChar(c: char): char
  {
    if 'A' <= c <= 'Z' then ((c as int) + 32) as char else c
  }

  function ToLower(s: string): (t: string)
    ensures |t| == |s| && forall i | 0 <= i < |s| :: t[i] == LowerChar(s[i])
  {
    if s == "" then "" else [LowerChar(s[0])] + ToLower(s[1..])
  }

  method ToLowerCopy(s: string) returns (out: string)
    ensures out == ToLower(s)
  {
    out := s;
    for i := 0 to |s|
      invariant |out| == |s|
      invariant forall k | 0 <= k < i :: out[k] == LowerChar(s[k])
      invariant forall k | i <= k < |s| :: out[k] == s[k]
    {
      out := out[i := LowerChar(out[i])];
    }
    assert out == ToLower(s);
  }

  predicate VersionWellFormed(v: string)
  {
    |v| == 8 && v[..5] == "HTTP/" && IsDigit(v[5]) && v[6] == '.' && IsDigit(v[7])
  }

  /** The request-line grammar: two spaces exactly, a target that starts with '/', a decodable path.
      `None` stands for the 400 the parser reports. */
  function ParseRequestLine(line: string): Option<HttpRequest>
  {
    var first := FindChar(line, ' ', 0);
    if first.None? then None else
    var second := FindChar(line, ' ', first.value + 1);
    if second.None? || FindChar(line, ' ', second.value + 1).Some? then None else
    var verb := line[..first.value];
    var target := line[first.value + 1..second.value];
    var version := line[second.value + 1..];
    if verb == "" || target == "" || target[0] != '/' || !VersionWellFormed(version) then None else
    var q := FindChar(target, '?', 0);
    var path := PercentDecode(if q.None? then target else target[..q.value]);
    var query := if q.None? then "" else target[q.value + 1..];
    if path.None? then None
    else Some(HttpRequest(verb, path.value, query, version, map[], ""))
  }

  /** The header-line grammar: the lower-cased trimmed name and the trimmed value. */
  function ParseHeaderLine(line: string): Option<(string, string)>
  {
    var colon := FindChar(line, ':', 0);
    if colon.None? then None else
    var name := TrimOws(line[..colon.value]);
    if name == "" then None
    else Some((ToLower(name), TrimOws(line[colon.value + 1..])))
  }
}
