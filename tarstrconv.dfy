// The numeric and textual field rules of the tar package: whether a number
// fits a fixed-width octal or base-256 header field, how a time is written as
// a PAX record value (and read back), and which PAX records are well formed.
module TarStrconv {
  import opened GoTypes
  import opened Wrappers
  import opened GoTime
  import opened Strconv

  /** fitsInOctal: x can be written in an n-byte field as octal digits followed
      by a NUL terminator, i.e. 0 <= x < 8^(n-1). */
  predicate FitsInOctal(n: nat, x: int)
    requires n >= 1
  {
    x >= 0 && (n >= 22 || x < Pow(8, n - 1))
  }

  /** fitsInBase256: x can be written in an n-byte field in GNU base-256 form,
      whose first byte only marks the encoding, i.e. -256^(n-1) <= x < 256^(n-1).
      Nine or more bytes hold every int64. */
  predicate FitsInBase256(n: nat, x: int)
    requires n >= 1
  {
    var m: int := Pow(256, n - 1);
    n >= 9 || (-m <= x < m)
  }

  /** Octal fits are one-directional: a smaller non-negative value fits
      whenever a larger one does. */
  lemma FitsInOctalDownward(n: nat, x: int, y: int)
    requires n >= 1 && 0 <= x <= y && FitsInOctal(n, y)
    ensures FitsInOctal(n, x)
  {
  }

  /** Trimming only reaches into the last part when that part does not
      consist of c alone. */
  lemma {:induction false} TrimRightConcat(a: Bytes, b: Bytes, c: uint8)
    requires TrimRight(b, c) != []
    ensures TrimRight(a + b, c) == a + TrimRight(b, c)
    decreases |b|
  {
    if |b| > 0 && b[|b| - 1] == c {
      assert (a + b)[..|a + b| - 1] == a + b[..|b| - 1];
      TrimRightConcat(a, b[..|b| - 1], c);
    }
  }

  /** Putting the trimmed bytes back restores the original. */
  lemma TrimRightRestore(s: Bytes, c: uint8)
    ensures TrimRight(s, c) + Repeat([c], |s| - |TrimRight(s, c)|) == s
  {
    var r := TrimRight(s, c);
    var z := Repeat([c], |s| - |r|);
    RepeatBytes([c], |s| - |r|);
    assert forall i :: 0 <= i < |z| ==> z[i] == c;
    assert r + z == s;
  }

  /** A numeral with a non-zero value does not trim away to nothing. */
  lemma TrimNonZeroNumeral(s: Bytes)
    requires AllDigits(s) && ParseDigits(s) > 0
    ensures TrimRight(s, Zero) != []
  {
    if TrimRight(s, Zero) == [] {
      TrimRightRestore(s, Zero);
      ParseZeros(|s|);
    }
  }

  lemma {:induction false} ParseDigitsBound(s: Bytes)
    requires AllDigits(s)
    ensures ParseDigits(s) < Pow(10, |s|)
    decreases |s|
  {
    if s != [] {
      ParseDigitsBound(s[..|s| - 1]);
    }
  }

  /** The nine-digit fraction of the PAX time of a negative second count with a
      non-zero nanosecond part: 1e9 - nsecs nanoseconds below it. */
  function Fraction(nsecs: int): (r: Bytes)
    requires 0 < nsecs < NanosPerSecond
    ensures |r| == 9 && AllDigits(r) && ParseDigits(r) == nsecs
  {
    assert Pow(10, 9) == NanosPerSecond;
    DigitsLength(nsecs, 9);
    PadDigits(nsecs, 9)
  }

  /** The "%s%d" part of formatPAXTime for a time with a sub-second part:
      the sign, then the whole seconds (counted from above for a negative
      time). */
  function SecondsText(ts: Instant): (r: Bytes)
    ensures r != [] && Dot !in r && Equals !in r && NUL !in r
  {
    var secs: int := ts.secs;
    var whole := if secs < 0 then -(secs + 1) else secs;
    FormatIntIsPlain(whole);
    assert Digits(whole) == FormatInt(whole);
    (if secs < 0 then [Minus] else []) + Digits(whole)
  }

  /** The ".%09d" digits of formatPAXTime: the nanoseconds, or for a negative
      time the nanoseconds left to the next whole second. */
  function FractionText(ts: Instant): (r: Bytes)
    requires ts.nanos != 0
    ensures |r| == 9 && AllDigits(r) && 0 < ParseDigits(r) < NanosPerSecond
  {
    Fraction(if ts.secs < 0 then NanosPerSecond - ts.nanos else ts.nanos)
  }

  /** formatPAXTime: whole seconds as a signed decimal; otherwise
      "%s%d.%09d" with trailing zeros removed, where a negative time is written
      as the sign, the whole seconds above it and the exact fraction, so that the
      text is the exact decimal value of the instant. */
  function FormatPAXTime(ts: Instant): (s: Bytes)
    ensures s != [] && Equals !in s && NUL !in s
  {
    FormatIntIsPlain(ts.secs);
    if ts.nanos == 0 then FormatInt(ts.secs)
    else
      var s := TrimRight(SecondsText(ts) + [Dot] + FractionText(ts), Zero);
      FractionTextTrims(ts);
      assert forall i :: |SecondsText(ts)| < i < |s| ==> IsDigit(s[i]);
      s
  }

  /** Only the fraction loses trailing zeros. */
  lemma FractionTextTrims(ts: Instant)
    requires ts.nanos != 0
    ensures TrimRight(FractionText(ts), Zero) != []
    ensures TrimRight(SecondsText(ts) + [Dot] + FractionText(ts), Zero)
      == SecondsText(ts) + [Dot] + TrimRight(FractionText(ts), Zero)
  {
    TrimNonZeroNumeral(FractionText(ts));
    TrimRightConcat(SecondsText(ts) + [Dot], FractionText(ts), Zero);
  }

  /** The fraction digits right-padded with zeros or truncated to nine. */
  function NineDigits(sn: Bytes): (r: Bytes)
    requires AllDigits(sn)
    ensures |r| == 9 && AllDigits(r) && ParseDigits(r) < NanosPerSecond
  {
    var r := if |sn| < 9 then sn + Repeat([Zero], 9 - |sn|) else sn[..9];
    ParseZeros(if |sn| < 9 then 9 - |sn| else 0);
    ParseDigitsConcat(sn, Repeat([Zero], if |sn| < 9 then 9 - |sn| else 0));
    ParseDigitsBound(r);
    assert Pow(10, 9) == NanosPerSecond;
    r
  }

  /** parsePAXTime: split at the first '.', read the seconds with ParseInt,
      right-pad or truncate the fraction to nine digits, and for a leading '-'
      count the fraction downwards. */
  function ParsePAXTime(s: Bytes): Option<Instant>
  {
    var pos := IndexByte(s, Dot);
    if pos >= 0 then ParsePAXParts(s[..pos], s[pos + 1..]) else ParsePAXParts(s, [])
  }

  /** The rest of parsePAXTime, given the text before the first '.' and the
      text after it. */
  function ParsePAXParts(ss: Bytes, sn: Bytes): Option<Instant>
  {
    match ParseInt(ss)
    case None => None
    case Some(secs) =>
      if sn == [] then Some(UnixTime(secs, 0))
      else if !AllDigits(sn) then None
      else
        var sn9 := NineDigits(sn);
        var nsecs: int := ParseDigits(sn9);
        if |ss| > 0 && ss[0] == Minus then Some(UnixTime(secs, -nsecs))
        else Some(UnixTime(secs, nsecs))
  }

  /** The first '.' of head + "." + tail is the one after head. */
  lemma SplitAtDot(head: Bytes, tail: Bytes)
    requires Dot !in head
    ensures IndexByte(head + [Dot] + tail, Dot) == |head|
    ensures (head + [Dot] + tail)[..|head|] == head
    ensures (head + [Dot] + tail)[|head| + 1..] == tail
  {
    var s := head + [Dot] + tail;
    assert s[|head|] == Dot;
    assert s[..|head|] == head;
  }

  /** Parsing a time whose fraction is the trimmed form of a nine-digit
      numeral f reads f back in full, as nsecs nanoseconds counted down from
      the seconds when the seconds carry a '-' sign. */
  lemma ParseTrimmedFraction(head: Bytes, f: Bytes, secs: Int64, nsecs: int)
    requires Dot !in head && ParseInt(head) == Some(secs)
    requires |f| == 9 && AllDigits(f) && ParseDigits(f) == nsecs && 0 < nsecs < NanosPerSecond
    ensures head != []
    ensures head[0] == Minus ==>
      ParsePAXTime(head + [Dot] + TrimRight(f, Zero)) == Some(UnixTime(secs, -nsecs))
    ensures head[0] != Minus ==>
      ParsePAXTime(head + [Dot] + TrimRight(f, Zero)) == Some(UnixTime(secs, nsecs))
  {
    var t := TrimRight(f, Zero);
    TrimmedFractionPieces(head, f);
    ParseFractional(head + [Dot] + t, head, t, secs, nsecs);
  }

  /** parsePAXTime on a text with a '.' followed by digits that pad to
      nsecs nanoseconds. */
  lemma ParseFractional(s: Bytes, ss: Bytes, sn: Bytes, secs: Int64, nsecs: int)
    requires IndexByte(s, Dot) == |ss| && s[..|ss|] == ss && s[|ss| + 1..] == sn
    requires ParseInt(ss) == Some(secs) && sn != [] && AllDigits(sn)
    requires ParseDigits(NineDigits(sn)) == nsecs && 0 <= nsecs < NanosPerSecond
    ensures ss != []
    ensures ss[0] == Minus ==> ParsePAXTime(s) == Some(UnixTime(secs, -nsecs))
    ensures ss[0] != Minus ==> ParsePAXTime(s) == Some(UnixTime(secs, nsecs))
  {
  }

  /** How parsePAXTime splits head + "." + the trimmed numeral f: head before
      the dot, and after it digits that pad back to f. */
  lemma TrimmedFractionPieces(head: Bytes, f: Bytes)
    requires Dot !in head
    requires |f| == 9 && AllDigits(f) && 0 < ParseDigits(f)
    ensures var t := TrimRight(f, Zero);
      var s := head + [Dot] + t;
      && IndexByte(s, Dot) == |head| && s[..|head|] == head && s[|head| + 1..] == t
      && t != [] && AllDigits(t) && NineDigits(t) == f
  {
    var t := TrimRight(f, Zero);
    TrimNonZeroNumeral(f);
    SplitAtDot(head, t);
    assert AllDigits(t);
    TrimRightRestore(f, Zero);
    assert NineDigits(t) == f;
  }

  /** The seconds part of a sub-second PAX time reads back as the whole
      seconds it was formed from (one more than t.Unix() below zero). */
  lemma ParseSecondsText(ts: Instant)
    ensures ParseInt(SecondsText(ts)) == Some(if ts.secs < 0 then ts.secs + 1 else ts.secs)
  {
    var secs: int := ts.secs;
    var whole := if secs < 0 then -(secs + 1) else secs;
    var head := SecondsText(ts);
    ParseDigitsOfDigits(whole);
    if secs < 0 {
      assert head[1..] == Digits(whole);
    } else {
      assert head == FormatInt(whole);
      ParseFormatInt(whole);
    }
  }

  lemma ParseWholePAXTime(ts: Instant)
    requires ts.nanos == 0
    ensures ParsePAXTime(FormatPAXTime(ts)) == Some(ts)
  {
    var s := FormatInt(ts.secs);
    ParseFormatInt(ts.secs);
    FormatIntIsPlain(ts.secs);
    assert FormatPAXTime(ts) == s;
    assert IndexByte(s, Dot) == -1;
  }

  /** time.Unix with a negative nanosecond count below a negative second
      count needs no wrap-around. */
  lemma UnixBorrow(secs: Int64, n: Nanos)
    requires secs < 0 && n != 0
    ensures UnixTime(secs + 1, -(NanosPerSecond - n)) == Instant(secs, n)
  {
  }

  /** The text of a sub-second time, with only the fraction trimmed. */
  lemma FractionalPAXText(ts: Instant)
    requires ts.nanos != 0
    ensures FormatPAXTime(ts) == SecondsText(ts) + [Dot] + TrimRight(FractionText(ts), Zero)
  {
    FractionTextTrims(ts);
  }

  lemma ParseNegativePAXTime(ts: Instant)
    requires ts.nanos != 0 && ts.secs < 0
    ensures ParsePAXTime(FormatPAXTime(ts)) == Some(ts)
  {
    var head := SecondsText(ts);
    var f := FractionText(ts);
    var n := NanosPerSecond - ts.nanos;
    assert f == Fraction(n);
    assert head[0] == Minus;
    FractionalPAXText(ts);
    ParseSecondsText(ts);
    ParseTrimmedFraction(head, f, ts.secs + 1, n);
    UnixBorrow(ts.secs, ts.nanos);
  }

  lemma ParseNonNegativePAXTime(ts: Instant)
    requires ts.nanos != 0 && ts.secs >= 0
    ensures ParsePAXTime(FormatPAXTime(ts)) == Some(ts)
  {
    var head := SecondsText(ts);
    FractionalPAXText(ts);
    ParseSecondsText(ts);
    ParseTrimmedFraction(head, FractionText(ts), ts.secs, ts.nanos);
    assert head[0] != Minus;
  }

  /** Reading a formatted PAX time gives back exactly the same instant. */
  lemma ParseFormatPAXTime(ts: Instant)
    ensures ParsePAXTime(FormatPAXTime(ts)) == Some(ts)
  {
    if ts.nanos == 0 {
      ParseWholePAXTime(ts);
    } else {
      if ts.secs < 0 {
        ParseNegativePAXTime(ts);
      } else {
        ParseNonNegativePAXTime(ts);
      }
    }
  }
}
