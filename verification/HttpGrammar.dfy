/** What the text helpers of the request parser accept, said without them: letter case, hexadecimal
    digits and escapes, blanks around text, versions and header lines. */
module HttpGrammar {
  import opened Common
  import opened HttpText

  // ---------------------------------------------------------------------------------------------
  // Letter case
  // ---------------------------------------------------------------------------------------------

  /** Equal up to the case of an ASCII letter. */
  predicate SameLetter(a: char, b: char)
  {
    || a == b
    || ('A' <= a <= 'Z' && b as int == a as int + 32)
    || ('A' <= b <= 'Z' && a as int == b as int + 32)
  }

  predicate SameName(a: string, b: string)
  {
    |a| == |b| && forall i | 0 <= i < |a| :: SameLetter(a[i], b[i])
  }

  predicate Lower(s: string)
  {
    forall i | 0 <= i < |s| :: !('A' <= s[i] <= 'Z')
  }

  /** Lower-casing is the one name without capitals that is the same up to case. */
  lemma LowerMeaning(s: string, t: string)
    ensures ToLower(s) == t <==> Lower(t) && SameName(s, t)
  {
    var u := ToLower(s);
    forall i | 0 <= i < |s| && |t| == |s| && Lower(t) && SameName(s, t) ensures t[i] == u[i] {
      assert SameLetter(s[i], t[i]);
    }
  }

  lemma LowerKept(s: string)
    requires Lower(s)
    ensures ToLower(s) == s
  {
    LowerMeaning(s, s);
  }

  /** Two names are lower-cased alike if and only if they are the same up to case. */
  lemma SameLower(a: string, b: string)
    ensures ToLower(a) == ToLower(b) <==> SameName(a, b)
  {
    LowerMeaning(a, ToLower(a));
    LowerMeaning(b, ToLower(b));
    LowerMeaning(a, ToLower(b));
    if SameName(a, b) {
      assert ToLower(a) == ToLower(b);
    }
  }

  // ---------------------------------------------------------------------------------------------
  // Percent-decoding (RFC 3986, section 2.1)
  // ---------------------------------------------------------------------------------------------

  const HEX := "0123456789abcdef"

  lemma HexDigits(c: char, v: nat)
    requires v < 16
    ensures IsHexDigit(c) && HexValue(c) == v <==> SameLetter(c, HEX[v])
  {
  }

  /** "%XY" for the byte with these two digits, in either case. */
  predicate IsEscape(e: string, c: char)
  {
    && |e| == 3 && e[0] == '%' && c as int < 256
    && SameLetter(e[1], HEX[c as int / 16]) && SameLetter(e[2], HEX[c as int % 16])
  }

  predicate IsPiece(e: string, c: char)
  {
    (e == [c] && c != '%') || IsEscape(e, c)
  }

  predicate IsEncoding(pieces: seq<string>, t: string)
  {
    |pieces| == |t| && forall i | 0 <= i < |t| :: IsPiece(pieces[i], t[i])
  }

  /** A text written character by character, each as it is or escaped, '%' always escaped. */
  ghost predicate Encodes(s: string, t: string)
  {
    exists pieces :: IsEncoding(pieces, t) && s == Concat(pieces)
  }

  lemma {:induction false} EncodedDecodes(pieces: seq<string>, t: string)
    requires IsEncoding(pieces, t)
    ensures PercentDecode(Concat(pieces)) == Some(t)
    decreases |pieces|
  {
    if pieces != [] {
      hide HexValue, IsHexDigit;
      var c, e, rest := t[0], pieces[0], Concat(pieces[1..]);
      EncodedDecodes(pieces[1..], t[1..]);
      assert t == [c] + t[1..];
      if IsEscape(e, c) {
        HexDigits(e[1], c as int / 16);
        HexDigits(e[2], c as int % 16);
        assert (e + rest)[3..] == rest;
      } else {
        assert (e + rest)[1..] == rest;
      }
    }
  }

  lemma {:induction false} DecodedIsEncoding(s: string) returns (pieces: seq<string>)
    requires PercentDecode(s).Some?
    ensures IsEncoding(pieces, PercentDecode(s).value) && s == Concat(pieces)
    decreases |s|
  {
    if s == "" {
      pieces := [];
    } else {
      var n := if s[0] == '%' then 3 else 1;
      var later := DecodedIsEncoding(s[n..]);
      var t := PercentDecode(s).value;
      pieces := [s[..n]] + later;
      assert pieces[1..] == later && t[1..] == PercentDecode(s[n..]).value && s == s[..n] + s[n..];
      FirstPiece(s);
    }
  }

  lemma FirstPiece(s: string)
    requires s != "" && PercentDecode(s).Some?
    ensures IsPiece(if s[0] == '%' then s[..3] else s[..1], PercentDecode(s).value[0])
  {
    if s[0] == '%' {
      hide HexValue, IsHexDigit;
      var x, y := HexValue(s[1]), HexValue(s[2]);
      HexDigits(s[1], x);
      HexDigits(s[2], y);
      assert (16 * x + y) / 16 == x && (16 * x + y) % 16 == y;
    }
  }

  /** Decoding gives `t` exactly for the texts that encode it, and fails for those that encode nothing. */
  lemma PercentGrammar(s: string, t: string)
    ensures PercentDecode(s) == Some(t) <==> Encodes(s, t)
  {
    if PercentDecode(s) == Some(t) {
      var pieces := DecodedIsEncoding(s);
    }
    if pieces :| IsEncoding(pieces, t) && s == Concat(pieces) {
      EncodedDecodes(pieces, t);
    }
  }

  // ---------------------------------------------------------------------------------------------
  // Blanks, header lines, versions
  // ---------------------------------------------------------------------------------------------

  predicate Blanks(s: string)
  {
    forall i | 0 <= i < |s| :: s[i] == ' ' || s[i] == '\t'
  }

  /** No blank at either end. */
  predicate Trimmed(s: string)
  {
    s == "" || (s[0] != ' ' && s[0] != '\t' && s[|s| - 1] != ' ' && s[|s| - 1] != '\t')
  }

  ghost predicate Padded(s: string, t: string)
  {
    Trimmed(t) && exists a, b :: Blanks(a) && Blanks(b) && s == a + t + b
  }

  lemma {:induction false} TrimLeftPadded(a: string, t: string)
    requires Blanks(a) && (t == "" || !IsOws(t[0]))
    ensures TrimLeft(a + t) == t
    decreases |a|
  {
    if a == "" {
      assert a + t == t;
    } else {
      assert (a + t)[1..] == a[1..] + t;
      TrimLeftPadded(a[1..], t);
    }
  }

  lemma {:induction false} TrimRightPadded(t: string, b: string)
    requires Blanks(b) && (t == "" || !IsOws(t[|t| - 1]))
    ensures TrimRight(t + b) == t
    decreases |b|
  {
    if b == "" {
      assert t + b == t;
    } else {
      var n := |b| - 1;
      assert (t + b)[..|t| + n] == t + b[..n];
      TrimRightPadded(t, b[..n]);
    }
  }

  lemma {:induction false} TrimLeftDrops(s: string) returns (a: string)
    ensures Blanks(a) && s == a + TrimLeft(s)
    decreases |s|
  {
    a := "";
    if s != "" && IsOws(s[0]) {
      var b := TrimLeftDrops(s[1..]);
      a := [s[0]] + b;
      assert s == [s[0]] + s[1..];
    }
  }

  lemma {:induction false} TrimRightDrops(s: string) returns (b: string)
    ensures Blanks(b) && s == TrimRight(s) + b
    ensures TrimRight(s) != "" ==> TrimRight(s)[0] == s[0]
    decreases |s|
  {
    b := "";
    if s != "" && IsOws(s[|s| - 1]) {
      var n := |s| - 1;
      var a := TrimRightDrops(s[..n]);
      b := a + [s[n]];
      assert s == s[..n] + [s[n]];
    }
  }

  lemma BlanksAround(a: string, b: string)
    requires Blanks(a) && Blanks(b)
    ensures TrimOws(a + b) == ""
  {
    assert Blanks(a + b) && a + b + "" == a + b;
    TrimLeftPadded(a + b, "");
  }

  /** Trimming takes the blanks away from both ends and nothing else. */
  lemma TrimMeaning(s: string, t: string)
    ensures TrimOws(s) == t <==> Padded(s, t)
  {
    if Padded(s, t) {
      var a, b :| Blanks(a) && Blanks(b) && s == a + t + b;
      if t == "" {
        assert s == a + b;
        BlanksAround(a, b);
      } else {
        assert s == a + (t + b);
        TrimLeftPadded(a, t + b);
        TrimRightPadded(t, b);
      }
    }
    var a := TrimLeftDrops(s);
    var b := TrimRightDrops(TrimLeft(s));
    assert s == a + TrimOws(s) + b;
  }

  /** Header lines: a name and a value around the first colon, blanks around each; the name, which may
      not be empty, is lower-cased. */
  lemma HeaderLineGrammar(line: string, key: string, value: string)
    ensures ParseHeaderLine(line) == Some((key, value)) <==>
            exists before, name, after :: IsHeaderLine(line, before, name, after, key, value)
  {
    hide TrimOws, ToLower, Padded, Lower, SameName;
    var colon := FindChar(line, ':', 0);
    if colon.Some? {
      var before, after := line[..colon.value], line[colon.value + 1..];
      var name := TrimOws(before);
      assert line == before + ":" + after;
      TrimMeaning(before, name);
      TrimMeaning(after, value);
      LowerMeaning(name, key);
      assert ParseHeaderLine(line) == Some((key, value)) ==> IsHeaderLine(line, before, name, after, key, value);
    }
    forall before, name, after | IsHeaderLine(line, before, name, after, key, value)
      ensures ParseHeaderLine(line) == Some((key, value))
    {
      assert line[|before|] == ':' && line[..|before|] == before && line[|before| + 1..] == after;
      assert forall i | 0 <= i < |before| :: line[i] == before[i];
      TrimMeaning(before, name);
      TrimMeaning(after, value);
      LowerMeaning(name, key);
    }
  }

  ghost predicate IsHeaderLine(line: string, before: string, name: string, after: string, key: string, value: string)
  {
    && line == before + ":" + after && (forall i | 0 <= i < |before| :: before[i] != ':')
    && name != "" && Padded(before, name) && Lower(key) && SameName(name, key) && Padded(after, value)
  }

  lemma VersionGrammar(v: string)
    ensures VersionWellFormed(v) <==>
            exists a, b :: '0' <= a <= '9' && '0' <= b <= '9' && v == "HTTP/" + [a] + "." + [b]
  {
    if VersionWellFormed(v) {
      assert v == v[..5] + [v[5]] + [v[6]] + [v[7]];
      assert v == "HTTP/" + [v[5]] + "." + [v[7]];
    }
    forall a: char, b: char | '0' <= a <= '9' && '0' <= b <= '9' && v == "HTTP/" + [a] + "." + [b]
      ensures VersionWellFormed(v)
    {
      assert v[..5] == "HTTP/" && v[5] == a && v[6] == '.' && v[7] == b;
    }
  }
}
