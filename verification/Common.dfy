/** Values and text searches shared by every module. A byte of the source is a `char` here and a
    byte string is a `string`; where a value must be a real byte, `IsBytes` says so. */
module Common {

  datatype Option<+T> = None | Some(value: T)

  const U64_MAX: nat := 0xFFFF_FFFF_FFFF_FFFF
  const I64_MAX: nat := 0x7FFF_FFFF_FFFF_FFFF

  function Min(a: int, b: int): int { if a < b then a else b }

  function Max(a: int, b: int): int { if a < b then b else a }

  predicate IsBytes(s: string)
  {
    forall i | 0 <= i < |s| :: s[i] as int < 256
  }

  /** Index of the first `c` at or after `from`, as `std::string::find` reports it. */
  function FindChar(s: string, c: char, from: nat): (r: Option<nat>)
    requires from <= |s|
    ensures r.Some? ==> from <= r.value < |s| && s[r.value] == c && forall i | from <= i < r.value :: s[i] != c
    ensures r.None? ==> forall i | from <= i < |s| :: s[i] != c
    decreases |s| - from
  {
    if from == |s| then None
    else if s[from] == c then Some(from)
    else FindChar(s, c, from + 1)
  }

  predicate CrlfAt(s: string, i: int)
  {
    0 <= i && i + 1 < |s| && s[i] == '\r' && s[i + 1] == '\n'
  }

  function FindCrlfFrom(s: string, from: nat): (r: Option<nat>)
    requires from <= |s|
    ensures r.Some? ==> from <= r.value && CrlfAt(s, r.value) && forall i | from <= i < r.value :: !CrlfAt(s, i)
    ensures r.None? ==> forall i | from <= i :: !CrlfAt(s, i)
    decreases |s| - from
  {
    if from == |s| then None
    else if CrlfAt(s, from) then Some(from)
    else FindCrlfFrom(s, from + 1)
  }

  /** `s.find("\r\n")`. */
  function FindCrlf(s: string): (r: Option<nat>)
    ensures r.Some? ==> CrlfAt(s, r.value) && forall i | 0 <= i < r.value :: !CrlfAt(s, i)
    ensures r.None? ==> forall i | 0 <= i :: !CrlfAt(s, i)
  {
    FindCrlfFrom(s, 0)
  }

  /** A CR LF that is already in the text stays the first one whatever is appended. */
  lemma FindCrlfAppend(s: string, t: string)
    requires FindCrlf(s).Some?
    ensures FindCrlf(s + t) == FindCrlf(s)
  {
    var p := FindCrlf(s).value;
    assert CrlfAt(s + t, p);
    assert forall i | 0 <= i < p :: CrlfAt(s + t, i) == CrlfAt(s, i);
  }

  /** Cutting the text anywhere after its first CR LF keeps that CR LF first. */
  lemma FindCrlfPrefix(s: string, k: nat)
    requires FindCrlf(s).Some? && FindCrlf(s).value + 2 <= k <= |s|
    ensures FindCrlf(s[..k]) == FindCrlf(s)
  {
    var p := FindCrlf(s).value;
    assert CrlfAt(s[..k], p);
    assert forall i | 0 <= i < p :: CrlfAt(s[..k], i) == CrlfAt(s, i);
  }

  /** A line without CR LF is ended by the CR LF written after it. */
  lemma FindCrlfLine(line: string, rest: string)
    requires FindCrlf(line).None?
    ensures FindCrlf(line + "\r\n" + rest) == Some(|line|)
  {
    var s := line + "\r\n" + rest;
    assert CrlfAt(s, |line|);
    forall i | 0 <= i < |line| ensures !CrlfAt(s, i) {
      assert !CrlfAt(line, i);
    }
  }

  /** Concatenation of a list of pieces. */
  function Concat(pieces: seq<string>): string
  {
    if pieces == [] then "" else pieces[0] + Concat(pieces[1..])
  }

  /** A map that sends no two keys to one value has as many values as keys. */
  lemma {:induction false} InjectiveMap<A, B>(m: map<A, B>)
    requires forall a, b | a in m && b in m && a != b :: m[a] != m[b]
    ensures |m.Values| == |m|
    decreases |m|
  {
    if m != map[] {
      var a :| a in m;
      var rest := m - {a};
      InjectiveMap(rest);
      forall v | v in m.Values ensures v == m[a] || v in rest.Values {
        var k :| k in m && m[k] == v;
        assert k != a ==> k in rest && rest[k] == v;
      }
      assert m.Values == rest.Values + {m[a]} && m[a] !in rest.Values;
    }
  }

  lemma ConcatTwo(a: string, b: string)
    ensures Concat([a, b]) == a + b
  {
    var empty: seq<string> := [];
    assert [a, b][1..] == [b] && [b][1..] == empty;
    assert Concat(empty) == "" && Concat([b]) == b + "" == b;
  }
}
