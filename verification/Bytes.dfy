/** Bytes, decimal numerals and the C library's number parsing, as far as the
    RESP wire format and the append-only file need them. */
module Bytes {

  type byte = b: int | 0 <= b < 256

  const NUL: byte := 0
  const LF: byte := 10
  const CR: byte := 13
  const SPACE: byte := 32
  const DOLLAR: byte := 36
  const STAR: byte := 42
  const PLUS: byte := 43
  const MINUS: byte := 45
  const ZERO: byte := 48
  const COLON: byte := 58

  const CRLF: seq<byte> := [CR, LF]

  /** The bytes of an ASCII literal. */
  function Ascii(s: string): (b: seq<byte>)
    ensures |b| == |s|
    ensures forall i :: 0 <= i < |s| ==> b[i] == s[i] as int % 256
  {
    seq(|s|, i requires 0 <= i < |s| => s[i] as int % 256)
  }

  predicate IsDigit(b: byte) { ZERO <= b <= ZERO + 9 }

  predicate AllDigits(s: seq<byte>) { forall i :: 0 <= i < |s| ==> IsDigit(s[i]) }

  /** What ll2string prints for a non-negative number. */
  function Digits(n: nat): (s: seq<byte>)
    ensures |s| >= 1 && AllDigits(s)
  {
    if n < 10 then [ZERO + n] else Digits(n / 10) + [ZERO + n % 10]
  }

  /** The value a parser has accumulated after reading the digits s. */
  function DigitsValue(s: seq<byte>): nat
    requires AllDigits(s)
  {
    if s == [] then 0 else DigitsValue(s[..|s| - 1]) * 10 + (s[|s| - 1] - ZERO)
  }

  lemma {:induction false} DigitsRoundTrip(n: nat)
    ensures DigitsValue(Digits(n)) == n
  {
    if n >= 10 {
      DigitsRoundTrip(n / 10);
      assert Digits(n)[..|Digits(n)| - 1] == Digits(n / 10);
    }
  }

  function Pow10(k: nat): (p: nat)
    ensures p >= 1
  {
    if k == 0 then 1 else 10 * Pow10(k - 1)
  }

  lemma {:induction false} DigitsLength(n: nat, k: nat)
    requires 1 <= k && n < Pow10(k)
    ensures |Digits(n)| <= k
  {
    if n >= 10 {
      assert n / 10 < Pow10(k - 1);
      DigitsLength(n / 10, k - 1);
    }
  }

  /** Every 64-bit number prints in at most twenty digits. */
  lemma DigitsOfWord(n: nat)
    requires n < 0x1_0000_0000_0000_0000
    ensures |Digits(n)| <= 20
  {
    assert Pow10(5) == 100000;
    assert Pow10(10) == 100000 * Pow10(5);
    assert Pow10(15) == 100000 * Pow10(10);
    assert Pow10(20) == 100000 * Pow10(15);
    DigitsLength(n, 20);
  }

  lemma {:induction false} LeadingDigit(n: nat)
    requires n >= 1
    ensures Digits(n)[0] != ZERO
  {
    if n >= 10 { LeadingDigit(n / 10); }
  }

  /** A numeral that does not start with 0 has a positive value, and so has every
      non-empty prefix of it: a truncated count never reads as zero. */
  lemma {:induction false} PositiveValue(s: seq<byte>)
    requires AllDigits(s) && s != [] && s[0] != ZERO
    ensures DigitsValue(s) >= 1
  {
    if |s| > 1 { PositiveValue(s[..|s| - 1]); }
  }

  // ----- atoi and strtol -----------------------------------------------------

  predicate IsSpace(b: byte) { b == SPACE || 9 <= b <= 13 }

  function SkipSpace(s: seq<byte>): seq<byte>
  {
    if s != [] && IsSpace(s[0]) then SkipSpace(s[1..]) else s
  }

  /** The longest run of digits at the front of s. */
  function DigitRun(s: seq<byte>): (d: seq<byte>)
    ensures AllDigits(d) && d <= s
    ensures |d| < |s| ==> !IsDigit(s[|d|])
  {
    if s != [] && IsDigit(s[0]) then [s[0]] + DigitRun(s[1..]) else []
  }

  /** strtol(s, NULL, 10): blanks, one sign, then digits up to the first other byte. */
  function Strtol(s: seq<byte>): int
  {
    var t := SkipSpace(s);
    if t != [] && t[0] == MINUS then 0 - DigitsValue(DigitRun(t[1..]))
    else if t != [] && t[0] == PLUS then DigitsValue(DigitRun(t[1..]))
    else DigitsValue(DigitRun(t))
  }

  lemma {:induction false} DigitRunOf(d: seq<byte>, tail: seq<byte>)
    requires AllDigits(d) && (tail != [] ==> !IsDigit(tail[0]))
    ensures DigitRun(d + tail) == d
  {
    if d == [] {
      assert d + tail == tail;
    } else {
      assert (d + tail)[1..] == d[1..] + tail;
      DigitRunOf(d[1..], tail);
      assert d == [d[0]] + d[1..];
    }
  }

  /** A numeral followed by anything that is not a digit reads as its own value. */
  lemma {:induction false} StrtolOfDigits(d: seq<byte>, tail: seq<byte>)
    requires d != [] && AllDigits(d) && (tail != [] ==> !IsDigit(tail[0]))
    ensures Strtol(d + tail) == DigitsValue(d)
  {
    assert (d + tail)[0] == d[0];
    DigitRunOf(d, tail);
  }

  /** What ll2string prints for any number. */
  function Decimal(n: int): (s: seq<byte>)
    ensures |s| >= 1
  {
    if n < 0 then [MINUS] + Digits(-n) else Digits(n)
  }

  lemma StrtolOfDecimal(n: int)
    ensures Strtol(Decimal(n)) == n
  {
    var d := Digits(if n < 0 then -n else n);
    DigitsRoundTrip(if n < 0 then -n else n);
    assert d + [] == d;
    DigitRunOf(d, []);
    if n < 0 {
      assert Decimal(n)[1..] == d;
    } else {
      StrtolOfDigits(d, []);
    }
  }

  // ----- letter case -----------------------------------------------------------

  function LowerByte(b: byte): byte { if 65 <= b <= 90 then b + 32 else b }

  function Lower(s: seq<byte>): (r: seq<byte>)
    ensures |r| == |s|
    ensures forall i :: 0 <= i < |s| ==> r[i] == LowerByte(s[i])
  {
    seq(|s|, i requires 0 <= i < |s| => LowerByte(s[i]))
  }

  /** The bytes a C string function sees. */
  function UpToNul(s: seq<byte>): seq<byte>
  {
    if s == [] || s[0] == NUL then [] else [s[0]] + UpToNul(s[1..])
  }

  // ----- pieces, one behind the other -------------------------------------------------------

  function Flat(cs: seq<seq<byte>>): seq<byte>
  {
    if cs == [] then [] else cs[0] + Flat(cs[1..])
  }

  lemma {:induction false} FlatAppend(a: seq<seq<byte>>, b: seq<seq<byte>>)
    ensures Flat(a + b) == Flat(a) + Flat(b)
  {
    if a == [] {
      assert a + b == b;
    } else {
      assert (a + b)[1..] == a[1..] + b;
      FlatAppend(a[1..], b);
    }
  }

  lemma FlatLast(cs: seq<seq<byte>>, more: seq<byte>)
    requires cs != []
    ensures Flat(cs[|cs| - 1 := cs[|cs| - 1] + more]) == Flat(cs) + more
  {
    var init, last := cs[..|cs| - 1], cs[|cs| - 1];
    assert cs == init + [last] && cs[|cs| - 1 := last + more] == init + [last + more];
    FlatAppend(init, [last]);
    FlatAppend(init, [last + more]);
    assert Flat([last]) == last + Flat([]) && Flat([last + more]) == last + more + Flat([]);
  }

  lemma FlatEmptyLast(cs: seq<seq<byte>>)
    ensures Flat(cs + [[]]) == Flat(cs)
  {
    FlatAppend(cs, [[]]);
    assert Flat([[]]) == [] + Flat([]);
  }
}
