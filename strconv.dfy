// Decimal conversion of integers, as Go's strconv.FormatInt(n, 10) and
// strconv.ParseInt(s, 10, 64) do it. The tar classifier renders numeric PAX
// overrides with FormatInt; a reader recovers them with ParseInt.
module Strconv {
  import opened GoTypes
  import opened Wrappers

  predicate IsDigit(b: uint8)
  {
    Zero <= b <= Zero + 9
  }

  predicate AllDigits(s: Bytes)
  {
    forall i :: 0 <= i < |s| ==> IsDigit(s[i])
  }

  function DigitByte(d: int): (b: uint8)
    requires 0 <= d < 10
    ensures IsDigit(b)
  {
    (Zero as int + d) as uint8
  }

  function DigitValue(b: uint8): (d: nat)
    requires IsDigit(b)
    ensures d < 10 && DigitByte(d) == b
  {
    (b - Zero) as nat
  }

  /** The shortest decimal numeral of n (no sign, no leading zeros). */
  function Digits(n: nat): (r: Bytes)
    ensures |r| > 0 && AllDigits(r)
    ensures r[0] == Zero ==> n == 0
    decreases n
  {
    if n < 10 then [DigitByte(n)] else Digits(n / 10) + [DigitByte(n % 10)]
  }

  /** The value of a numeral (most significant digit first). */
  function ParseDigits(s: Bytes): nat
    requires AllDigits(s)
  {
    if s == [] then 0 else ParseDigits(s[..|s| - 1]) * 10 + DigitValue(s[|s| - 1])
  }

  /** Reading the numeral of n gives n back. */
  lemma {:induction false} ParseDigitsOfDigits(n: nat)
    ensures ParseDigits(Digits(n)) == n
    decreases n
  {
    if n >= 10 {
      var r := Digits(n);
      assert r[..|r| - 1] == Digits(n / 10);
      ParseDigitsOfDigits(n / 10);
    }
  }

  /** Extending a numeral by one digit on the right. */
  lemma DigitsOfSplit(q: nat, d: nat)
    requires q >= 1 && d < 10
    ensures Digits(q * 10 + d) == Digits(q) + [DigitByte(d)]
  {
  }

  /** A numeral of n has at most k digits when n < 10^k. */
  lemma {:induction false} DigitsLength(n: nat, k: nat)
    requires k >= 1 && n < Pow(10, k)
    ensures |Digits(n)| <= k
    decreases n
  {
    if n >= 10 {
      assert k >= 2;
      assert n / 10 < Pow(10, k - 1);
      DigitsLength(n / 10, k - 1);
    }
  }

  /** The value of a concatenation of numerals. */
  lemma {:induction false} ParseDigitsConcat(a: Bytes, b: Bytes)
    requires AllDigits(a) && AllDigits(b)
    ensures AllDigits(a + b)
    ensures ParseDigits(a + b) == ParseDigits(a) * Pow(10, |b|) + ParseDigits(b)
    decreases |b|
  {
    if b == [] {
      assert a + b == a;
    } else {
      var b' := b[..|b| - 1];
      assert (a + b)[..|a + b| - 1] == a + b';
      ParseDigitsConcat(a, b');
      var x, p, y, d := ParseDigits(a), Pow(10, |b'|), ParseDigits(b'), DigitValue(b[|b| - 1]);
      assert ParseDigits(a + b) == ParseDigits(a + b') * 10 + d;
      assert ParseDigits(b) == y * 10 + d;
      assert Pow(10, |b|) == 10 * p;
      ShiftDigit(x, p, y, d);
    }
  }

  /** The arithmetic of appending one digit. */
  lemma ShiftDigit(x: int, p: int, y: int, d: int)
    ensures (x * p + y) * 10 + d == x * (10 * p) + (y * 10 + d)
  {
  }

  /** Any number of zero digits have value zero. */
  lemma {:induction false} ParseZeros(k: nat)
    ensures AllDigits(Repeat([Zero], k)) && ParseDigits(Repeat([Zero], k)) == 0
  {
    RepeatBytes([Zero], k);
    var z := Repeat([Zero], k);
    if k > 0 {
      assert z == Repeat([Zero], k - 1) + [Zero] by { RepeatSnoc([Zero], k - 1); }
      ParseZeros(k - 1);
    }
  }

  lemma {:induction false} RepeatSnoc(s: Bytes, n: nat)
    ensures Repeat(s, n + 1) == Repeat(s, n) + s
  {
    if n > 0 {
      RepeatSnoc(s, n - 1);
    }
  }

  /** The arithmetic of taking the last digit off r. */
  lemma AppendStep(q: int, p: int, r: nat)
    ensures q * (p * 10) + r == (q * p + r / 10) * 10 + r % 10
  {
    assert r == r / 10 * 10 + r % 10;
  }

  /** Writing the numeral of r after the numeral of q gives the numeral of
      q * 10^|Digits(r)| + r. */
  lemma {:induction false} DigitsAppend(q: nat, r: nat)
    requires q >= 1
    ensures Digits(q * Pow(10, |Digits(r)|) + r) == Digits(q) + Digits(r)
    decreases r
  {
    if r >= 10 {
      DigitsAppend(q, r / 10);
      var k := |Digits(r / 10)|;
      var p := Pow(10, k);
      assert Digits(r) == Digits(r / 10) + [DigitByte(r % 10)];
      assert Pow(10, k + 1) == p * 10;
      AppendStep(q, p, r);
      DigitsOfSplit(q * p + r / 10, r % 10);
    } else {
      DigitsOfSplit(q, r);
    }
  }

  /** The numeral of a long number from the numerals of its two halves, each
      given as text. */
  lemma DigitsJoin(q: nat, r: nat, k: nat, n: nat, a: string, b: string)
    requires q >= 1 && |Digits(r)| == k && n == q * Pow(10, k) + r
    requires IsAsciiText(a) && IsAsciiText(b)
    requires Digits(q) == Ascii(a) && Digits(r) == Ascii(b)
    ensures IsAsciiText(a + b) && Digits(n) == Ascii(a + b)
  {
    DigitsAppend(q, r);
    AsciiConcat(a, b);
  }

  /** fmt's "%0*d": the numeral of n left-padded with zeros to width bytes. */
  function PadDigits(n: nat, width: nat): (r: Bytes)
    requires |Digits(n)| <= width
    ensures |r| == width && AllDigits(r)
    ensures ParseDigits(r) == n
  {
    var z := Repeat([Zero], width - |Digits(n)|);
    ParseZeros(width - |Digits(n)|);
    ParseDigitsOfDigits(n);
    ParseDigitsConcat(z, Digits(n));
    z + Digits(n)
  }

  /** strconv.FormatInt(n, 10). */
  function FormatInt(n: int): (r: Bytes)
    ensures r != [] && (r[0] == Minus <==> n < 0)
    ensures AllDigits(if n < 0 then r[1..] else r)
  {
    if n < 0 then [Minus] + Digits(-n) else Digits(n)
  }

  /** strconv.ParseInt(s, 10, 64): an optional sign, then at least one digit;
      values outside int64 are a range error. */
  function ParseInt(s: Bytes): (r: Option<Int64>)
    ensures r.Some? ==> s != []
  {
    if s == [] then None
    else
      var body := if s[0] == Plus || s[0] == Minus then s[1..] else s;
      if body == [] || !AllDigits(body) then None
      else
        var p: int := ParseDigits(body);
        var v := if s[0] == Minus then -p else p;
        if MinInt64 <= v <= MaxInt64 then Some(v) else None
  }

  /** Reading back a formatted int64 gives the same value. */
  lemma ParseFormatInt(n: Int64)
    ensures ParseInt(FormatInt(n)) == Some(n)
  {
    var r := FormatInt(n);
    var m: int := n;
    if m < 0 {
      assert r[1..] == Digits(-m);
      ParseDigitsOfDigits(-m);
    } else {
      ParseDigitsOfDigits(n);
    }
  }

  /** Formatted decimal integers carry neither '=' nor NUL, so they are always
      acceptable PAX record values. */
  lemma FormatIntIsPlain(n: int)
    ensures Equals !in FormatInt(n) && NUL !in FormatInt(n) && Dot !in FormatInt(n)
  {
    var r := FormatInt(n);
    forall i | 0 <= i < |r| ensures r[i] != Equals && r[i] != NUL && r[i] != Dot {
      if n < 0 && i > 0 {
        assert r[i] == r[1..][i - 1];
      }
    }
  }
}
