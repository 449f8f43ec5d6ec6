/** Decimal integers as `fmt` prints them and `strconv.ParseInt(s, 10, 64)` reads them. */
module Decimals {
  import opened Prelude
  import opened Text

  const INT64_LIMIT: int := 0x8000_0000_0000_0000

  predicate IsDigit(c: char) {
    '0' <= c <= '9'
  }

  predicate AllDigits(s: string) {
    forall i | 0 <= i < |s| :: IsDigit(s[i])
  }

  function DigitValue(c: char): (d: nat)
    requires IsDigit(c)
    ensures d < 10
  {
    c as int - '0' as int
  }

  function DigitChar(d: nat): (c: char)
    requires d < 10
    ensures IsDigit(c) && DigitValue(c) == d
  {
    '0' + d as char
  }

  /** `%d` of a natural number. */
  function Print(n: nat): (s: string)
    ensures s != "" && AllDigits(s)
  {
    if n < 10 then [DigitChar(n)] else Print(n / 10) + [DigitChar(n % 10)]
  }

  /** The number a run of digits denotes; leading zeros are harmless. */
  function ValueOf(s: string): nat
    requires AllDigits(s)
  {
    if s == "" then 0 else 10 * ValueOf(s[..|s| - 1]) + DigitValue(s[|s| - 1])
  }

  lemma {:induction false} PrintDenotes(n: nat)
    ensures ValueOf(Print(n)) == n
  {
    if n >= 10 {
      PrintDenotes(n / 10);
      assert Print(n)[..|Print(n)| - 1] == Print(n / 10);
    } else {
      assert Print(n)[..0] == "";
    }
  }

  /** `strconv.ParseInt(s, 10, 64)`: an optional sign, at least one digit, and a value that fits in 64 bits. */
  function ParseInt(s: string): (r: Option<int>)
    ensures r.Some? ==> -INT64_LIMIT <= r.value < INT64_LIMIT
  {
    var negative := s != "" && s[0] == '-';
    var digits := if s != "" && (s[0] == '-' || s[0] == '+') then s[1..] else s;
    if digits == "" || !AllDigits(digits) then None
    else
      var n := ValueOf(digits);
      if negative then if n > INT64_LIMIT then None else Some(0 - n as int)
      else if n >= INT64_LIMIT then None else Some(n)
  }

  // ---- Zero-padded numbers ----

  function Zeros(n: nat): (s: string)
    ensures |s| == n && AllDigits(s)
  {
    seq(n, i => '0')
  }

  /** `%020d` of a natural number. */
  function Pad20(n: nat): (s: string)
    ensures AllDigits(s)
  {
    var digits := Print(n);
    Zeros(if |digits| < 20 then 20 - |digits| else 0) + digits
  }

  lemma {:induction false} ValueOfZeros(k: nat, s: string)
    requires AllDigits(s)
    ensures AllDigits(Zeros(k) + s) && ValueOf(Zeros(k) + s) == ValueOf(s)
  {
    if s == "" {
      if k > 0 {
        ValueOfZeros(k - 1, "");
        assert (Zeros(k) + s)[..k - 1] == Zeros(k - 1) + "";
      } else {
        assert Zeros(k) + s == "";
      }
    } else {
      var last := |s| - 1;
      ValueOfZeros(k, s[..last]);
      assert (Zeros(k) + s)[..k + last] == Zeros(k) + s[..last];
    }
  }

  function Pow10(n: nat): nat {
    if n == 0 then 1 else 10 * Pow10(n - 1)
  }

  lemma {:induction false} PrintLength(n: nat, width: nat)
    requires 0 < width && n < Pow10(width)
    ensures |Print(n)| <= width
  {
    if n >= 10 {
      PrintLength(n / 10, width - 1);
    }
  }

  lemma MulAssociates(x: nat, y: nat, z: nat)
    ensures x * (y * z) == (x * y) * z
  {
  }

  lemma {:induction false} Pow10Add(a: nat, b: nat)
    ensures Pow10(a + b) == Pow10(a) * Pow10(b)
  {
    if a > 0 {
      Pow10Add(a - 1, b);
      MulAssociates(10, Pow10(a - 1), Pow10(b));
    }
  }

  lemma Pad20Width(n: nat)
    requires n < INT64_LIMIT
    ensures |Pad20(n)| == 20 && ValueOf(Pad20(n)) == n
  {
    assert Pow10(10) == 10000000000 by {
      assert Pow10(5) == 100000;
    }
    Pow10Add(10, 10);
    PrintLength(n, 20);
    PrintDenotes(n);
    ValueOfZeros(20 - |Print(n)|, Print(n));
  }

  /** Among digit strings of one width, key order is numeric order and equal values are equal strings. */
  lemma {:induction false} SameWidthOrder(a: string, b: string)
    requires |a| == |b| && AllDigits(a) && AllDigits(b)
    ensures Less(a, b) <==> ValueOf(a) < ValueOf(b)
    ensures a == b <==> ValueOf(a) == ValueOf(b)
  {
    if a != "" {
      var n := |a| - 1;
      var a', b', x, y := a[..n], b[..n], a[n], b[n];
      SameWidthOrder(a', b');
      assert a == a' + [x] && b == b' + [y];
      LessSnoc(a', x, b', y);
      assert x < y <==> DigitValue(x) < DigitValue(y);
      assert x == y <==> DigitValue(x) == DigitValue(y);
      if x == y && a' == b' {
        assert a == b;
      }
    }
  }
}
