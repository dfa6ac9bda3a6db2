/** The `Range` header: which bytes of a resource it selects. */
module Range {
  import opened Common
  import opened Decimal
  import opened FileStream

  /** Outcome of `parseRange`; the range is inclusive and resolved against the resource size. */
  datatype RangeResult = NoRangeHeader | Satisfiable(start: nat, end: nat) | NotSatisfiable

  const BYTES_PREFIX := "bytes="

  function RangeOf(header: string, size: nat): RangeResult
  {
    if header == "" then NoRangeHeader
    else if !(BYTES_PREFIX <= header) then NotSatisfiable
    else
      var spec := header[|BYTES_PREFIX|..];
      var dash := FindChar(spec, '-', 0);
      if spec == "" || FindChar(spec, ',', 0).Some? || dash.None? || size == 0 then NotSatisfiable
      else Resolve(spec[..dash.value], spec[dash.value + 1..], size)
  }

  function Resolve(startPart: string, endPart: string, size: nat): RangeResult
    requires size > 0
  {
    if startPart == "" then
      var suffix := ParseU64(endPart);
      if suffix.None? || suffix.value == 0 then NotSatisfiable
      else Clip(size - Min(suffix.value, size), size - 1, size)
    else
      var start := ParseU64(startPart);
      if start.None? then NotSatisfiable
      else if endPart == "" then Clip(start.value, size - 1, size)
      else
        var end := ParseU64(endPart);
        if end.None? then NotSatisfiable else Clip(start.value, end.value, size)
  }

  function Clip(start: nat, end: nat, size: nat): RangeResult
    requires size > 0
  {
    if start > end || start >= size then NotSatisfiable
    else Satisfiable(start, Min(end, size - 1))
  }

  method ParseUint64(s: string) returns (ok: bool, out: u64)
    ensures ok <==> ParseU64(s).Some?
    ensures ok ==> out as int == ParseU64(s).value
  {
    ok, out := false, 0;
    if s == "" { return; }
    var r := ParseU64(s);
    if r.Some? {
      ok, out := true, r.value as u64;
    }
  }

  /** `parseRange`, in 64-bit arithmetic throughout: no operation of it can wrap. */
  method ParseRange(header: string, resourceSize: u64) returns (r: RangeResult)
    ensures r == RangeOf(header, resourceSize as int)
  {
    if header == "" { return NoRangeHeader; }
    if !(BYTES_PREFIX <= header) { return NotSatisfiable; }
    var spec := header[|BYTES_PREFIX|..];
    if spec == "" || FindChar(spec, ',', 0).Some? { return NotSatisfiable; }
    var dash := FindChar(spec, '-', 0);
    if dash.None? { return NotSatisfiable; }
    if resourceSize == 0 { return NotSatisfiable; }
    var startPart := spec[..dash.value];
    var endPart := spec[dash.value + 1..];

    var rangeStart: u64, rangeEnd: u64;
    if startPart == "" {
      var ok, suffixLength := ParseUint64(endPart);
      if !ok || suffixLength == 0 { return NotSatisfiable; }
      if suffixLength > resourceSize {
        suffixLength := resourceSize;
      }
      rangeStart, rangeEnd := resourceSize - suffixLength, resourceSize - 1;
    } else {
      var ok, start := ParseUint64(startPart);
      if !ok { return NotSatisfiable; }
      if endPart == "" {
        rangeStart, rangeEnd := start, resourceSize - 1;
      } else {
        var okEnd, end := ParseUint64(endPart);
        if !okEnd { return NotSatisfiable; }
        rangeStart, rangeEnd := start, end;
      }
    }
    if rangeStart > rangeEnd || rangeStart >= resourceSize { return NotSatisfiable; }
    if rangeEnd >= resourceSize {
      rangeEnd := resourceSize - 1;
    }
    return Satisfiable(rangeStart as int, rangeEnd as int);
  }

  // ---------------------------------------------------------------------------------------------
  // RFC 7233, section 2.1
  // ---------------------------------------------------------------------------------------------

  /** One byte-range-spec: first-last, first-, or -length. */
  datatype RangeSpec = FromTo(first: nat, last: nat) | From(first: nat) | Suffix(length: nat)

  /** The header text denotes the spec; numerals may carry leading zeros. */
  ghost predicate Denotes(header: string, spec: RangeSpec)
  {
    match spec
    case FromTo(first, last) =>
      exists a, b :: Numeral(a, first) && Numeral(b, last) && header == "bytes=" + a + "-" + b
    case From(first) => exists a :: Numeral(a, first) && header == "bytes=" + a + "-"
    case Suffix(length) => exists b :: Numeral(b, length) && header == "bytes=" + "-" + b
  }

  /** The inclusive positions a spec selects in a representation of `size` bytes, if it is satisfiable. */
  function Selects(spec: RangeSpec, size: nat): Option<(nat, nat)>
  {
    match spec
    case FromTo(first, last) => if first <= last && first < size then Some((first, Min(last, size - 1))) else None
    case From(first) => if first < size then Some((first, size - 1)) else None
    case Suffix(length) =>
      if length > 0 && size > 0 then Some((if length < size then size - length else 0, size - 1)) else None
  }

  const TWO_64: nat := 0x1_0000_0000_0000_0000

  /** Every number of the spec fits 64 bits. */
  predicate FitsU64(spec: RangeSpec)
  {
    match spec
    case FromTo(first, last) => first < TWO_64 && last < TWO_64
    case From(first) => first < TWO_64
    case Suffix(length) => length < TWO_64
  }

  lemma SplitSpec(a: string, b: string)
    requires AllDigits(a) && AllDigits(b)
    ensures var header := BYTES_PREFIX + a + "-" + b;
            var spec := header[|BYTES_PREFIX|..];
            && header != "" && BYTES_PREFIX <= header && spec != ""
            && FindChar(spec, ',', 0).None? && FindChar(spec, '-', 0) == Some(|a|)
            && spec[..|a|] == a && spec[|a| + 1..] == b
  {
    hide FindChar;
    var spec := (BYTES_PREFIX + a + "-" + b)[|BYTES_PREFIX|..];
    assert spec == a + "-" + b;
    assert forall i | 0 <= i < |a| :: IsDigit(spec[i]);
    assert forall i | |a| < i < |spec| :: spec[i] == b[i - |a| - 1] && IsDigit(spec[i]);
    assert spec[|a|] == '-';
  }

  lemma SpecIsResolved(a: string, b: string, size: nat)
    requires AllDigits(a) && AllDigits(b)
    ensures RangeOf(BYTES_PREFIX + a + "-" + b, size) == if size == 0 then NotSatisfiable else Resolve(a, b, size)
  {
    SplitSpec(a, b);
    hide FindChar, Resolve;
  }

  /** A header that denotes a spec: the code selects what the RFC selects, provided the numbers fit
      64 bits; otherwise it answers that the range is not satisfiable. */
  lemma DenotedRange(header: string, spec: RangeSpec, size: nat)
    requires Denotes(header, spec)
    ensures RangeOf(header, size) ==
            if FitsU64(spec) && Selects(spec, size).Some?
            then Satisfiable(Selects(spec, size).value.0, Selects(spec, size).value.1)
            else NotSatisfiable
  {
    hide FindChar, RangeOf, Value;
    match spec
    case FromTo(first, last) =>
      var a, b :| Numeral(a, first) && Numeral(b, last) && header == "bytes=" + a + "-" + b;
      SpecIsResolved(a, b, size);
    case From(first) =>
      var a :| Numeral(a, first) && header == "bytes=" + a + "-";
      assert header == BYTES_PREFIX + a + "-" + "";
      SpecIsResolved(a, "", size);
    case Suffix(length) =>
      var b :| Numeral(b, length) && header == "bytes=" + "-" + b;
      assert header == BYTES_PREFIX + "" + "-" + b;
      SpecIsResolved("", b, size);
  }

  /** The code selects bytes only for a header that denotes a spec. */
  lemma SatisfiableDenotes(header: string, size: nat) returns (spec: RangeSpec)
    requires RangeOf(header, size).Satisfiable?
    ensures Denotes(header, spec)
  {
    hide FindChar, Value;
    var text := header[|BYTES_PREFIX|..];
    var dash := FindChar(text, '-', 0).value;
    var a, b := text[..dash], text[dash + 1..];
    assert header == BYTES_PREFIX + a + "-" + b;
    if a == "" {
      spec := Suffix(Value(b));
      assert header == BYTES_PREFIX + "-" + b && Numeral(b, Value(b));
    } else if b == "" {
      spec := From(Value(a));
      assert header == BYTES_PREFIX + a + "-" && Numeral(a, Value(a));
    } else {
      spec := FromTo(Value(a), Value(b));
      assert Numeral(a, Value(a)) && Numeral(b, Value(b));
    }
  }

  /** Exactly when and what `parseRange` selects, for every header and every size. */
  lemma RangeMeaning(header: string, size: nat, start: nat, end: nat)
    ensures RangeOf(header, size) == Satisfiable(start, end) <==>
            exists spec :: Denotes(header, spec) && FitsU64(spec) && Selects(spec, size) == Some((start, end))
    ensures RangeOf(header, size) == NoRangeHeader <==> header == ""
    ensures RangeOf(header, size) == Satisfiable(start, end) ==> start <= end < size
  {
    hide FindChar, FitsU64, Selects, Denotes;
    if RangeOf(header, size) == Satisfiable(start, end) {
      var spec := SatisfiableDenotes(header, size);
      DenotedRange(header, spec, size);
    }
    forall spec | Denotes(header, spec) && FitsU64(spec) && Selects(spec, size) == Some((start, end))
      ensures RangeOf(header, size) == Satisfiable(start, end)
    {
      DenotedRange(header, spec, size);
    }
  }

  /** Where the code leaves the RFC: a last position that does not fit 64 bits makes an otherwise
      satisfiable range unsatisfiable. */
  lemma HugeLastPosition(n: nat, size: nat)
    requires n >= TWO_64 && size > 0
    ensures Denotes("bytes=" + ToText(0) + "-" + ToText(n), FromTo(0, n))
    ensures Selects(FromTo(0, n), size) == Some((0, Min(n, size - 1)))
    ensures RangeOf("bytes=" + ToText(0) + "-" + ToText(n), size) == NotSatisfiable
  {
    hide FindChar, Value, ToText;
    ValueToText(0);
    ValueToText(n);
    var a, b := ToText(0), ToText(n);
    assert Numeral(a, 0) && Numeral(b, n);
    DenotedRange("bytes=" + a + "-" + b, FromTo(0, n), size);
  }
}
