/** Byte ranges of a stored file: the `Range` header parser, checked against section 14.1.2 of RFC 9110, and a
    client that fetches a file in consecutive chunks. */
module ByteRange {
  import opened Prelude
  import opened Text
  import opened Decimals

  type Int64 = x: int | -INT64_LIMIT <= x < INT64_LIMIT

  /** A file size. */
  type Size = x: int | 0 <= x < INT64_LIMIT

  /** The two sides of the dash, either of which may be missing. */
  function Bounds(first: string, last: string, totalSize: Size): Option<(Int64, Int64)> {
    if first == "" then
      match ParseInt(last)
      case None => None
      case Some(suffix) =>
        if suffix <= 0 then None
        else
          var start: Int64 := totalSize - suffix;
          var end: Int64 := totalSize - 1;
          Some((if start < 0 then 0 else start, end))
    else
      match ParseInt(first)
      case None => None
      case Some(start) =>
        if start < 0 || start >= totalSize then None
        else if last == "" then Some((start, totalSize - 1))
        else
          match ParseInt(last)
          case None => None
          case Some(end) =>
            if end < start then None
            else Some((start, if end >= totalSize then totalSize - 1 else end))
  }

  /** The first and last byte position, both included. Every intermediate value is an `Int64`, so nothing
      overflows. */
  function ParseRange(header: string, totalSize: Size): Option<(Int64, Int64)> {
    if !("bytes=" <= header) then None
    else
      var parts := SplitTwo(TrimPrefix(header, "bytes="), '-');
      if |parts| != 2 then None else Bounds(parts[0], parts[1], totalSize)
  }

  lemma BoundsInside(first: string, last: string, totalSize: Size)
    requires Bounds(first, last, totalSize).Some?
    ensures var (start, end) := Bounds(first, last, totalSize).value;
            && (0 <= start <= end < totalSize <==> totalSize > 0)
            && (totalSize == 0 ==> start == 0 && end == -1 && first == "")
  {
    hide ParseInt;
  }

  /** An accepted range lies inside the file exactly when the file is not empty. For an empty file the parser
      accepts suffix ranges, as the impossible range from 0 to -1. */
  lemma AcceptedRangeInside(header: string, totalSize: Size)
    requires ParseRange(header, totalSize).Some?
    ensures var (start, end) := ParseRange(header, totalSize).value;
            && (0 <= start <= end < totalSize <==> totalSize > 0)
            && (totalSize == 0 ==> start == 0 && end == -1 && "bytes=-" <= header)
  {
    hide Bounds;
    var rest := TrimPrefix(header, "bytes=");
    var parts := SplitTwo(rest, '-');
    BoundsInside(parts[0], parts[1], totalSize);
    if totalSize == 0 {
      assert header == "bytes=" + rest && rest[0] == '-';
    }
  }

  // ---- The standard ----

  /** A range specifier of RFC 9110, section 14.1.2. */
  datatype RangeSpec = FromTo(first: nat, last: nat) | From(first: nat) | Suffix(length: nat)

  function Render(spec: RangeSpec): string {
    match spec
    case FromTo(a, b) => "bytes=" + Print(a) + "-" + Print(b)
    case From(a) => "bytes=" + Print(a) + "-"
    case Suffix(n) => "bytes=-" + Print(n)
  }

  /** The first and last position a specifier selects: a range is satisfiable if its first position is inside the
      representation, a suffix if its length is not zero; what reaches too far is cut. A suffix of an empty
      representation selects nothing, which as positions reads 0 to -1. */
  function Selected(spec: RangeSpec, totalSize: nat): Option<(nat, int)> {
    match spec
    case FromTo(a, b) => if a <= b && a < totalSize then Some((a, Min(b, totalSize - 1))) else None
    case From(a) => if a < totalSize then Some((a, totalSize - 1)) else None
    case Suffix(n) => if n > 0 then Some((Max(0, totalSize - n), totalSize - 1)) else None
  }

  /** Where the handler departs from the standard: numbers beyond 64 bits are refused instead of cut. */
  predicate Departs(spec: RangeSpec, totalSize: nat) {
    match spec
    case FromTo(a, b) => a < totalSize && b >= 9223372036854775808
    case From(a) => false
    case Suffix(n) => n >= 9223372036854775808
  }

  lemma ParseSpec(a: string, b: string, totalSize: Size)
    requires AllDigits(a)
    ensures ParseRange("bytes=" + a + "-" + b, totalSize) == Bounds(a, b, totalSize)
  {
    hide Bounds, SplitTwo;
    var header := "bytes=" + a + "-" + b;
    assert header == "bytes=" + (a + ['-'] + b);
    assert header[|"bytes="|..] == a + ['-'] + b;
    SplitTwoInverts(a, '-', b);
  }

  /** A number as the grammar writes it: one digit or more, leading zeros allowed. */
  ghost predicate Number(s: string, n: nat) {
    s != "" && AllDigits(s) && ValueOf(s) == n
  }

  /** The two sides of the dash spell a specifier. */
  ghost predicate Spells(first: string, last: string, spec: RangeSpec) {
    match spec
    case FromTo(a, b) => Number(first, a) && Number(last, b)
    case From(a) => Number(first, a) && last == ""
    case Suffix(n) => first == "" && Number(last, n)
  }

  lemma ParseNumber(s: string, n: nat)
    requires Number(s, n)
    ensures ParseInt(s) == if n < INT64_LIMIT then Some(n) else None
  {
    assert IsDigit(s[0]);
  }

  lemma BoundsFromTo(first: string, last: string, a: nat, b: nat, totalSize: Size)
    requires Number(first, a) && Number(last, b)
    ensures Bounds(first, last, totalSize) ==
            if a <= b < INT64_LIMIT && a < totalSize then Some((a, Min(b, totalSize - 1))) else None
  {
    ParseNumber(first, a);
    ParseNumber(last, b);
    hide ParseInt, ValueOf, AllDigits;
  }

  lemma BoundsFrom(first: string, a: nat, totalSize: Size)
    requires Number(first, a)
    ensures Bounds(first, "", totalSize) == if a < totalSize then Some((a, totalSize - 1)) else None
  {
    ParseNumber(first, a);
    hide ParseInt, ValueOf, AllDigits;
  }

  lemma BoundsSuffix(last: string, n: nat, totalSize: Size)
    requires Number(last, n)
    ensures Bounds("", last, totalSize) ==
            if 0 < n < INT64_LIMIT then Some((Max(0, totalSize - n), totalSize - 1)) else None
  {
    ParseNumber(last, n);
    hide ParseInt, ValueOf, AllDigits;
  }

  /** However a specifier is spelled, and for every size, the parser selects the bytes the standard names, except
      exactly where numbers go beyond 64 bits. */
  lemma ParserMeetsStandard(first: string, last: string, spec: RangeSpec, totalSize: Size)
    requires Spells(first, last, spec)
    ensures ParseRange("bytes=" + first + "-" + last, totalSize) == Selected(spec, totalSize) <==>
            !Departs(spec, totalSize)
    ensures Departs(spec, totalSize) ==> ParseRange("bytes=" + first + "-" + last, totalSize).None?
  {
    ParseSpec(first, last, totalSize);
    hide ParseRange, Bounds, AllDigits, ValueOf;
    match spec
    case FromTo(a, b) => BoundsFromTo(first, last, a, b, totalSize);
    case From(a) => BoundsFrom(first, a, totalSize);
    case Suffix(n) => BoundsSuffix(last, n, totalSize);
  }

  lemma PrintedSpells(spec: RangeSpec) returns (first: string, last: string)
    ensures Spells(first, last, spec) && Render(spec) == "bytes=" + first + "-" + last
  {
    match spec
    case FromTo(a, b) =>
      first, last := Print(a), Print(b);
      PrintDenotes(a);
      PrintDenotes(b);
    case From(a) =>
      first, last := Print(a), "";
      PrintDenotes(a);
      assert Render(spec) == "bytes=" + first + "-" + "";
    case Suffix(n) =>
      first, last := "", Print(n);
      PrintDenotes(n);
      assert Render(spec) == "bytes=" + "" + "-" + last;
  }

  lemma ParseFromTo(a: nat, b: nat, totalSize: Size)
    ensures ParseRange(Render(FromTo(a, b)), totalSize) ==
            if a <= b < INT64_LIMIT && a < totalSize then Some((a, Min(b, totalSize - 1))) else None
  {
    hide ParseRange, Render;
    var first, last := PrintedSpells(FromTo(a, b));
    ParserMeetsStandard(first, last, FromTo(a, b), totalSize);
  }

  // ---- What else the parser accepts ----

  /** A number with the sign that `strconv` tolerates: a plus, or a minus before zero. */
  ghost predicate SignedNumber(s: string, n: nat) {
    Number(s, n) || (s != "" && (s[0] == '+' || (s[0] == '-' && n == 0)) && Number(s[1..], n))
  }

  ghost predicate SpellsSigned(first: string, last: string, spec: RangeSpec) {
    match spec
    case FromTo(a, b) => SignedNumber(first, a) && SignedNumber(last, b)
    case From(a) => SignedNumber(first, a) && last == ""
    case Suffix(n) => first == "" && SignedNumber(last, n)
  }

  lemma ParsedNumber(s: string)
    requires ParseInt(s).Some? && ParseInt(s).value >= 0
    ensures SignedNumber(s, ParseInt(s).value)
  {
  }

  lemma BoundsMean(first: string, last: string, totalSize: Size) returns (spec: RangeSpec)
    requires Bounds(first, last, totalSize).Some?
    ensures SpellsSigned(first, last, spec) && Bounds(first, last, totalSize) == Selected(spec, totalSize)
  {
    hide ParseInt, SignedNumber;
    if first == "" {
      ParsedNumber(last);
      spec := Suffix(ParseInt(last).value);
    } else {
      ParsedNumber(first);
      if last == "" {
        spec := From(ParseInt(first).value);
      } else {
        ParsedNumber(last);
        spec := FromTo(ParseInt(first).value, ParseInt(last).value);
      }
    }
  }

  /** Whatever header is accepted, the bytes are those of a specifier that it spells, signs apart. */
  lemma AcceptedMeans(header: string, totalSize: Size) returns (first: string, last: string, spec: RangeSpec)
    requires ParseRange(header, totalSize).Some?
    ensures header == "bytes=" + first + "-" + last && SpellsSigned(first, last, spec)
    ensures ParseRange(header, totalSize) == Selected(spec, totalSize)
  {
    hide Bounds, SpellsSigned, Selected;
    var rest := TrimPrefix(header, "bytes=");
    var parts := SplitTwo(rest, '-');
    first, last := parts[0], parts[1];
    spec := BoundsMean(first, last, totalSize);
    assert header == "bytes=" + rest && rest == first + "-" + last;
    assert header == "bytes=" + first + "-" + last;
  }

  predicate RangeChar(c: char) {
    '0' <= c <= '9' || c == '-' || c == '+'
  }

  lemma SignedChars(s: string, n: nat)
    requires SignedNumber(s, n)
    ensures forall c | c in s :: RangeChar(c)
  {
    hide ValueOf;
    forall c | c in s
      ensures RangeChar(c)
    {
      var i :| 0 <= i < |s| && s[i] == c;
      if !AllDigits(s) && i > 0 {
        assert s[1..][i - 1] == c;
      }
    }
  }

  lemma SidesChars(first: string, last: string, spec: RangeSpec)
    requires SpellsSigned(first, last, spec)
    ensures forall c | c in first + "-" + last :: RangeChar(c)
  {
    hide SignedNumber;
    match spec {
      case FromTo(a, b) =>
        SignedChars(first, a);
        SignedChars(last, b);
      case From(a) => SignedChars(first, a);
      case Suffix(n) => SignedChars(last, n);
    }
    forall c | c in first + "-" + last
      ensures RangeChar(c)
    {
      assert c in first || c == '-' || c in last;
    }
  }

  /** So other units, headers without a dash and lists of ranges are refused. */
  lemma OthersRefused(header: string, totalSize: Size)
    ensures ParseRange(header, totalSize).Some? ==>
              "bytes=" <= header && '-' in header && forall c | c in header[6..] :: RangeChar(c)
  {
    hide *;
    if ParseRange(header, totalSize).Some? {
      var first, last, spec := AcceptedMeans(header, totalSize);
      SidesChars(first, last, spec);
      var rest := first + "-" + last;
      assert header == "bytes=" + rest;
      assert header[6..] == rest && rest[|first|] == '-';
    }
  }

  // ---- Serving and fetching ----

  datatype Response =
    | Full(body: Bytes)
    | Partial(first: int, last: int, totalSize: nat, body: Bytes)
    | NotSatisfiable(totalSize: nat)

  /** The range part of serveFile. */
  function Serve(file: Bytes, header: string): Response
    requires |file| < INT64_LIMIT
  {
    if header == "" then Full(file)
    else
      match ParseRange(header, |file|)
      case None => NotSatisfiable(|file|)
      case Some((start, end)) =>
        AcceptedRangeInside(header, |file|);
        var partSize := end - start + 1;
        Partial(start, end, |file|, file[start..start + partSize])
  }

  /** Without the header the whole file is served, with a header that is not accepted nothing, and otherwise exactly the
      bytes of the specifier that the header spells. */
  lemma ServeMeaning(file: Bytes, header: string) returns (first: string, last: string, spec: RangeSpec)
    requires |file| < INT64_LIMIT
    ensures header == "" ==> Serve(file, header) == Full(file)
    ensures header != "" && ParseRange(header, |file|).None? ==> Serve(file, header) == NotSatisfiable(|file|)
    ensures header != "" && ParseRange(header, |file|).Some? ==>
              && header == "bytes=" + first + "-" + last && SpellsSigned(first, last, spec)
              && Selected(spec, |file|).Some?
              && var (start, end) := Selected(spec, |file|).value;
                 && 0 <= start <= end + 1 <= |file|
                 && Serve(file, header) == Partial(start, end, |file|, file[start..end + 1])
  {
    hide ParseRange, SpellsSigned, Selected;
    first, last, spec := "", "", From(0);
    if header != "" && ParseRange(header, |file|).Some? {
      first, last, spec := AcceptedMeans(header, |file|);
      AcceptedRangeInside(header, |file|);
    }
  }

  lemma RenderNonEmpty(spec: RangeSpec)
    ensures Render(spec) != ""
  {
    hide Print;
  }

  lemma ChunkServed(file: Bytes, c: nat, at: nat)
    requires |file| < INT64_LIMIT && c > 0
    ensures Serve(file, Render(FromTo(at, at + c - 1))) ==
            if at < |file| && at + c <= INT64_LIMIT
            then Partial(at, Min(at + c, |file|) - 1, |file|, file[at..Min(at + c, |file|)])
            else NotSatisfiable(|file|)
  {
    hide ParseRange, Render;
    RenderNonEmpty(FromTo(at, at + c - 1));
    ParseFromTo(at, at + c - 1, |file|);
  }

  /** The bodies a client collects that asks for chunks of `c` bytes from position `at` until it is refused. */
  function Fetch(file: Bytes, c: nat, at: nat): seq<Bytes>
    requires |file| < INT64_LIMIT && c > 0
    decreases |file| - at
  {
    ChunkServed(file, c, at);
    match Serve(file, Render(FromTo(at, at + c - 1)))
    case Partial(_, _, _, body) => [body] + Fetch(file, c, at + c)
    case _ => []
  }

  function CeilDiv(x: nat, c: nat): nat
    requires c > 0
  {
    (x + c - 1) / c
  }

  lemma MulMonotone(a: nat, b: nat, c: nat)
    requires a <= b
    ensures a * c <= b * c
  {
  }

  lemma DivUnique(x: nat, c: nat, q: nat)
    requires c > 0 && q * c <= x < q * c + c
    ensures x / c == q
  {
    var p := x / c;
    assert p * c <= x < p * c + c;
    if p > q {
      MulMonotone(q + 1, p, c);
    } else if p < q {
      MulMonotone(p + 1, q, c);
    }
  }

  lemma CeilDivStep(x: nat, c: nat)
    requires c > 0
    ensures CeilDiv(x, c) == if x == 0 then 0 else if x <= c then 1 else 1 + CeilDiv(x - c, c)
  {
    if x == 0 {
      DivUnique(c - 1, c, 0);
    } else if x <= c {
      DivUnique(x + c - 1, c, 1);
    } else {
      var q := (x - 1) / c;
      assert q * c <= x - 1 < q * c + c;
      DivUnique(x + c - 1, c, q + 1);
    }
  }

  function Concat(parts: seq<Bytes>): Bytes {
    if parts == [] then [] else parts[0] + Concat(parts[1..])
  }

  lemma FetchStep(file: Bytes, c: nat, at: nat)
    requires |file| < INT64_LIMIT && c > 0
    ensures Fetch(file, c, at) ==
            if at < |file| && at + c <= INT64_LIMIT
            then [file[at..Min(at + c, |file|)]] + Fetch(file, c, at + c) else []
  {
    hide Serve, Render;
    ChunkServed(file, c, at);
  }

  lemma ConcatCons(part: Bytes, rest: seq<Bytes>)
    ensures Concat([part] + rest) == part + Concat(rest)
  {
    assert ([part] + rest)[1..] == rest;
  }

  lemma FetchLast(file: Bytes, c: nat, at: nat)
    requires |file| < INT64_LIMIT && c > 0 && at <= |file| <= at + c
    ensures Fetch(file, c, at) == if at < |file| && at + c <= INT64_LIMIT then [file[at..]] else []
    ensures Concat(Fetch(file, c, at)) == if at + c <= INT64_LIMIT then file[at..] else []
  {
    hide Fetch;
    FetchStep(file, c, at);
    FetchStep(file, c, at + c);
    if at < |file| {
      assert file[at..|file|] == file[at..] == file[at..] + [];
      ConcatCons(file[at..], []);
    }
  }

  /** From position `at` on: either every chunk arrives, or the last chunk's end would not fit in 64 bits and
      exactly that chunk is refused. */
  lemma {:induction false} FetchFrom(file: Bytes, c: nat, at: nat)
    requires |file| < INT64_LIMIT && c > 0 && at <= |file|
    ensures var n := CeilDiv(|file| - at, c);
            if n == 0 || at + n * c <= INT64_LIMIT
            then |Fetch(file, c, at)| == n && Concat(Fetch(file, c, at)) == file[at..]
            else |Fetch(file, c, at)| == n - 1 && |Concat(Fetch(file, c, at))| < |file| - at
    decreases |file| - at
  {
    hide Fetch, CeilDiv, Concat;
    var left := |file| - at;
    CeilDivStep(left, c);
    if left > c {
      var m := CeilDiv(left - c, c);
      FetchStep(file, c, at);
      FetchFrom(file, c, at + c);
      ConcatCons(file[at..at + c], Fetch(file, c, at + c));
      assert file[at..] == file[at..at + c] + file[at + c..];
      assert at + (1 + m) * c == at + c + m * c;
      CeilDivStep(left - c, c);
    } else {
      FetchLast(file, c, at);
    }
  }

  /** A client that fetches consecutive chunks of any size until it is refused gets the whole file, in as many
      parts as the size calls for, exactly when the file size rounded up to whole chunks still fits. */
  lemma ChunkedDownload(file: Bytes, c: nat)
    requires |file| < INT64_LIMIT && c > 0
    ensures var n := CeilDiv(|file|, c);
            && (Concat(Fetch(file, c, 0)) == file <==> n * c <= INT64_LIMIT)
            && (n * c <= INT64_LIMIT ==> |Fetch(file, c, 0)| == n)
  {
    hide Fetch, CeilDiv, Concat;
    FetchFrom(file, c, 0);
    assert file[0..] == file;
  }
}
