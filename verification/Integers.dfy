/** Integers as text: strtol with base 0 as QedisCore/QCommon.cc and QedisCore/redisZipList.c use it to decide
    whether a string is an integer, and the decimal rendering they read back. */
module Integers {
  import opened Bytes
  import opened Options

  const INT64_MAX: int := 0x7FFF_FFFF_FFFF_FFFF
  const INT64_MIN: int := -0x8000_0000_0000_0000

  const ZERO: byte := 48
  const MINUS: byte := 45
  const PLUS: byte := 43

  predicate IsSpace(b: byte) { b == 32 || 9 <= b <= 13 }

  /** The value of a digit in bases up to 16; 16 for anything else. */
  function DigitOf(b: byte): (d: nat)
    ensures d <= 16
  {
    if 48 <= b <= 57 then b - 48
    else if 97 <= b <= 102 then b - 97 + 10
    else if 65 <= b <= 70 then b - 65 + 10
    else 16
  }

  /** The number a nonempty string of digits denotes, None if some character is not a digit of the base. */
  function Digits(s: seq<byte>, base: nat): Option<nat> {
    if s == [] || DigitOf(s[|s| - 1]) >= base then None
    else if |s| == 1 then Some(DigitOf(s[0]))
    else match Digits(s[..|s| - 1], base)
      case None => None
      case Some(high) => Some(high * base + DigitOf(s[|s| - 1]))
  }

  function SkipSpaces(s: seq<byte>): seq<byte> {
    if s != [] && IsSpace(s[0]) then SkipSpaces(s[1..]) else s
  }

  function ParseUnsigned(s: seq<byte>): Option<nat> {
    if |s| > 2 && s[0] == ZERO && (s[1] == 120 || s[1] == 88) then Digits(s[2..], 16)
    else if s != [] && s[0] == ZERO then Digits(s, 8)
    else Digits(s, 10)
  }

  /** The integer strtol(s, &end, 0) reads when it consumes all of s; None when it stops earlier. */
  function Parse(s: seq<byte>): Option<int> {
    var t := SkipSpaces(s);
    if t != [] && t[0] == MINUS then
      match ParseUnsigned(t[1..]) case None => None case Some(n) => Some(-(n as int))
    else
      match ParseUnsigned(if t != [] && t[0] == PLUS then t[1..] else t)
      case None => None
      case Some(n) => Some(n as int)
  }

  /** QCommon.cc: at most 20 characters, and out-of-range values are refused. */
  function Strtol(s: seq<byte>): (r: Option<int>)
    ensures r.Some? ==> INT64_MIN <= r.value <= INT64_MAX
  {
    if s == [] || |s| > 20 then None
    else match Parse(s)
      case Some(v) => if INT64_MIN <= v <= INT64_MAX then Some(v) else None
      case None => None
  }

  /** redisZipList.c: at most 21 characters, and out-of-range values saturate. */
  function SaturatingStrtoll(s: seq<byte>): (r: Option<int>)
    ensures r.Some? ==> INT64_MIN <= r.value <= INT64_MAX
  {
    if s == [] || |s| > 21 then None
    else match Parse(s)
      case Some(v) => Some(if v < INT64_MIN then INT64_MIN else if v > INT64_MAX then INT64_MAX else v)
      case None => None
  }

  function DecimalNat(n: nat): (s: seq<byte>)
    ensures s != []
  {
    if n < 10 then [ZERO + n] else DecimalNat(n / 10) + [ZERO + n % 10]
  }

  function Decimal(v: int): (s: seq<byte>)
    ensures s != []
  {
    if v < 0 then [MINUS] + DecimalNat(-v) else DecimalNat(v)
  }

  /** The spellings Decimal produces: 0, or an optional minus sign and digits without a leading zero. */
  predicate Canonical(s: seq<byte>) {
    s == [ZERO] || CanonicalPositive(s) || (s != [] && s[0] == MINUS && CanonicalPositive(s[1..]))
  }

  predicate CanonicalPositive(s: seq<byte>) {
    s != [] && s[0] != ZERO && forall i :: 0 <= i < |s| ==> 48 <= s[i] <= 57
  }

  lemma {:induction false} DecimalNatSpelling(n: nat)
    ensures Digits(DecimalNat(n), 10) == Some(n)
    ensures if n == 0 then DecimalNat(n) == [ZERO] else CanonicalPositive(DecimalNat(n))
  {
    if n >= 10 {
      DecimalNatSpelling(n / 10);
      assert DecimalNat(n)[..|DecimalNat(n)| - 1] == DecimalNat(n / 10);
    }
  }

  lemma {:induction false} CanonicalPositiveValue(s: seq<byte>)
    requires CanonicalPositive(s)
    ensures Digits(s, 10).Some? && Digits(s, 10).value > 0 && DecimalNat(Digits(s, 10).value) == s
  {
    if |s| == 1 {
      assert DigitOf(s[0]) == s[0] - ZERO;
    } else {
      var high, last := s[..|s| - 1], s[|s| - 1];
      CanonicalPositiveValue(high);
      assert s == high + [last];
      var v := Digits(high, 10).value;
      OneMoreDigit(v, last);
      assert Digits(s, 10) == Some(v * 10 + DigitOf(last));
    }
  }

  lemma OneMoreDigit(v: nat, b: byte)
    requires v > 0 && 48 <= b <= 57
    ensures DecimalNat(v * 10 + DigitOf(b)) == DecimalNat(v) + [b] && DigitOf(b) < 10
  {
    var n := v * 10 + DigitOf(b);
    assert n / 10 == v && n % 10 == b - ZERO;
  }

  /** Every integer is read back from its decimal rendering. */
  lemma ParseDecimal(v: int)
    ensures Canonical(Decimal(v)) && Parse(Decimal(v)) == Some(v)
  {
    DecimalNatSpelling(if v < 0 then -v else v);
    var s := Decimal(v);
    if v < 0 {
      assert s[1..] == DecimalNat(-v);
    }
    assert SkipSpaces(s) == s;
    if v == 0 {
      assert Digits(s, 8) == Some(0);
    }
  }

  /** A string that reads as an integer is that integer's decimal rendering exactly when it is spelled canonically. */
  lemma RendersBack(s: seq<byte>)
    requires Parse(s).Some?
    ensures Decimal(Parse(s).value) == s <==> Canonical(s)
  {
    if Canonical(s) {
      assert SkipSpaces(s) == s;
      if s == [ZERO] {
        assert Digits(s, 8) == Some(0);
      } else if s[0] == MINUS {
        CanonicalPositiveValue(s[1..]);
        assert s[1] == s[1..][0];
        assert s == [MINUS] + s[1..];
      } else {
        CanonicalPositiveValue(s);
      }
    }
    ParseDecimal(Parse(s).value);
  }

  /** The digits of a number in a base up to 16, in lower case. */
  function Rendered(n: nat, base: nat): (s: seq<byte>)
    requires 2 <= base <= 16
    ensures s != []
  {
    if n < base then [DigitByte(n)] else Rendered(n / base, base) + [DigitByte(n % base)]
  }

  lemma {:induction false} DigitsOfRendered(n: nat, base: nat)
    requires base in {8, 10, 16}
    ensures Digits(Rendered(n, base), base) == Some(n)
    ensures (n > 0 ==> Rendered(n, base)[0] != ZERO) && DigitOf(Rendered(n, base)[0]) < 16
  {
    hide Digits, Rendered;
    var high, low := n / base, n % base;
    RenderedStep(n, base);
    LowDigit(n, base, high, low);
    if n >= base {
      DigitsOfRendered(high, base);
      DigitsStep(Rendered(high, base), DigitByte(low), base, high);
    } else {
      OneDigit(low, base);
    }
  }

  lemma RenderedStep(n: nat, base: nat)
    requires base in {8, 10, 16}
    ensures Rendered(n, base) == if n < base then [DigitByte(n)] else Rendered(n / base, base) + [DigitByte(n % base)]
  {
    assert n < base ==> n % base == n;
  }

  lemma OneDigit(n: nat, base: nat)
    requires n < base <= 16
    ensures Digits([DigitByte(n)], base) == Some(n) && (n > 0 ==> DigitByte(n) != ZERO)
  {
  }

  lemma DigitsStep(s: seq<byte>, b: byte, base: nat, high: nat)
    requires s != [] && Digits(s, base) == Some(high) && DigitOf(b) < base
    ensures Digits(s + [b], base) == Some(high * base + DigitOf(b))
  {
    assert (s + [b])[..|s + [b]| - 1] == s;
  }

  function DigitByte(d: nat): (b: byte)
    requires d < 16
    ensures DigitOf(b) == d
  {
    if d < 10 then ZERO + d else 87 + d
  }

  lemma LowDigit(n: nat, base: nat, high: nat, low: nat)
    requires base in {8, 10, 16} && high == n / base && low == n % base
    ensures n == high * base + low && low < base && if n < base then n == low else 0 < high < n
  {
    if base == 8 {
      assert high == n / 8 && low == n % 8;
    } else if base == 10 {
      assert high == n / 10 && low == n % 10;
    } else {
      assert high == n / 16 && low == n % 16;
    }
  }

  lemma {:induction false} SpacesSkipped(spaces: seq<byte>, s: seq<byte>)
    requires (forall b :: b in spaces ==> IsSpace(b)) && (s == [] || !IsSpace(s[0]))
    ensures SkipSpaces(spaces + s) == s
  {
    if spaces == [] {
      assert spaces + s == s;
    } else {
      assert spaces[0] in spaces && (spaces + s)[1..] == spaces[1..] + s;
      SpacesSkipped(spaces[1..], s);
    }
  }

  /** What is read: white space, a sign or none, and digits, of which 0x makes a hexadecimal number, and 0 an octal
      one. */
  lemma ParseReads(spaces: seq<byte>, sign: seq<byte>, n: nat)
    requires (forall b :: b in spaces ==> IsSpace(b)) && sign in {[], [PLUS], [MINUS]}
    ensures var v := if sign == [MINUS] then 0 - n else n;
            && (n > 0 ==> Parse(spaces + (sign + Rendered(n, 10))) == Some(v))
            && Parse(spaces + (sign + ([ZERO] + Rendered(n, 8)))) == Some(v)
            && Parse(spaces + (sign + ([ZERO, 120] + Rendered(n, 16)))) == Some(v)
            && Parse(spaces + (sign + ([ZERO, 88] + Rendered(n, 16)))) == Some(v)
  {
    hide Digits, Rendered;
    UnsignedReads(n);
    Signed(spaces, sign, [ZERO] + Rendered(n, 8), n);
    Signed(spaces, sign, [ZERO, 120] + Rendered(n, 16), n);
    Signed(spaces, sign, [ZERO, 88] + Rendered(n, 16), n);
    if n > 0 {
      Signed(spaces, sign, Rendered(n, 10), n);
    }
  }

  lemma Signed(spaces: seq<byte>, sign: seq<byte>, s: seq<byte>, n: nat)
    requires (forall b :: b in spaces ==> IsSpace(b)) && sign in {[], [PLUS], [MINUS]}
    requires s != [] && DigitOf(s[0]) < 16 && ParseUnsigned(s) == Some(n)
    ensures Parse(spaces + (sign + s)) == Some(if sign == [MINUS] then 0 - n else n)
  {
    hide ParseUnsigned;
    assert sign == [] ==> sign + s == s;
    assert sign != [] ==> (sign + s)[1..] == s;
    SpacesSkipped(spaces, sign + s);
  }

  lemma UnsignedReads(n: nat)
    ensures n > 0 ==> ParseUnsigned(Rendered(n, 10)) == Some(n)
    ensures ParseUnsigned([ZERO] + Rendered(n, 8)) == Some(n)
    ensures ParseUnsigned([ZERO, 120] + Rendered(n, 16)) == Some(n)
    ensures ParseUnsigned([ZERO, 88] + Rendered(n, 16)) == Some(n)
    ensures DigitOf(Rendered(n, 10)[0]) < 16
  {
    hide Rendered, Digits;
    DigitsOfRendered(n, 10);
    DigitsOfRendered(n, 8);
    DigitsOfRendered(n, 16);
    LeadingZero(Rendered(n, 8), n);
    HexReads(Rendered(n, 16), n, 120);
    HexReads(Rendered(n, 16), n, 88);
    if n > 0 {
      var s := Rendered(n, 10);
      assert ParseUnsigned(s) == Digits(s, 10);
    }
    OctalReads(Rendered(n, 8), n);
  }

  lemma OctalReads(s: seq<byte>, n: nat)
    requires Digits([ZERO] + s, 8) == Some(n) && s != [] && DigitOf(s[0]) < 16
    ensures ParseUnsigned([ZERO] + s) == Some(n)
  {
    hide Digits;
    assert ([ZERO] + s)[1] == s[0];
  }

  lemma HexReads(s: seq<byte>, n: nat, x: byte)
    requires s != [] && Digits(s, 16) == Some(n) && x in {120, 88}
    ensures ParseUnsigned([ZERO, x] + s) == Some(n)
  {
    hide Digits;
    assert ([ZERO, x] + s)[2..] == s;
  }

  lemma {:induction false} LeadingZero(s: seq<byte>, n: nat)
    requires Digits(s, 8) == Some(n)
    ensures Digits([ZERO] + s, 8) == Some(n) && DigitOf(s[0]) < 8
  {
    var t := [ZERO] + s;
    assert t[..|t| - 1] == [ZERO] + s[..|s| - 1];
    if |s| > 1 {
      LeadingZero(s[..|s| - 1], Digits(s[..|s| - 1], 8).value);
    } else {
      assert t[..1] == [ZERO];
    }
  }

  lemma {:induction false} DecimalNatLength(n: nat, k: nat)
    requires n < Power10(k) && k > 0
    ensures |DecimalNat(n)| <= k
  {
    if n >= 10 {
      DecimalNatLength(n / 10, k - 1);
    }
  }

  function Power10(k: nat): nat { if k == 0 then 1 else 10 * Power10(k - 1) }

  /** The rendering of a 64-bit integer is short enough to be recognised as that integer. */
  lemma DecimalIsInteger(v: int)
    requires INT64_MIN <= v <= INT64_MAX
    ensures |Decimal(v)| <= 20 && Strtol(Decimal(v)) == Some(v)
  {
    assert Power10(19) == 1_0000_0000_0000_0000_000 by {
      assert Power10(10) == 1_0000_0000_00;
    }
    DecimalNatLength(if v < 0 then -v else v, 19);
    ParseDecimal(v);
  }

  function Power16(k: nat): (n: nat)
    ensures n > 0
  {
    if k == 0 then 1 else 16 * Power16(k - 1)
  }

  lemma {:induction false} DigitsBound(s: seq<byte>, base: nat)
    requires base in {8, 10, 16} && Digits(s, base).Some?
    ensures Digits(s, base).value < Power16(|s|)
  {
    if |s| > 1 {
      DigitsBound(s[..|s| - 1], base);
      var high, digit := Digits(s[..|s| - 1], base).value, DigitOf(s[|s| - 1]);
      assert Digits(s, base).value == high * base + digit;
      OneMoreBound(high, digit, base, Power16(|s| - 1));
    }
  }

  lemma OneMoreBound(high: nat, digit: nat, base: nat, limit: nat)
    requires base in {8, 10, 16} && high < limit && digit < base
    ensures high * base + digit < 16 * limit
  {
    if base == 8 {
      assert high * 8 + digit < 16 * limit;
    } else if base == 10 {
      assert high * 10 + digit < 16 * limit;
    }
  }

  lemma {:induction false} Power16Monotone(i: nat, j: nat)
    requires i <= j
    ensures Power16(i) <= Power16(j)
  {
    if i < j {
      Power16Monotone(i, j - 1);
    }
  }

  lemma {:induction false} SkipSpacesShortens(s: seq<byte>)
    ensures |SkipSpaces(s)| <= |s|
  {
    if s != [] {
      SkipSpacesShortens(s[1..]);
    }
  }

  /** Nine characters, in any base, cannot spell an integer beyond 36 bits. */
  lemma ShortIntegerRange(s: seq<byte>)
    requires |s| < 10 && Parse(s).Some?
    ensures -0x10_0000_0000 < Parse(s).value < 0x10_0000_0000
  {
    SkipSpacesShortens(s);
    var t := SkipSpaces(s);
    var u := if t != [] && (t[0] == MINUS || t[0] == PLUS) then t[1..] else t;
    var base := if |u| > 2 && u[0] == ZERO && (u[1] == 120 || u[1] == 88) then 16
                else if u != [] && u[0] == ZERO then 8 else 10;
    var digits := if base == 16 then u[2..] else u;
    DigitsBound(digits, base);
    Power16Monotone(|digits|, 9);
    assert Power16(9) == 0x10_0000_0000 by {
      assert Power16(5) == 0x10_0000;
    }
  }

  lemma OneDigitMore(val: nat, s: seq<byte>)
    requires val > 0
    ensures DecimalNat(val) + Reverse(s)
            == (if val < 10 then [] else DecimalNat(val / 10)) + Reverse(s + [val % 10 + ZERO])
  {
    hide Reverse;
    ReverseAppend(s, val % 10 + ZERO);
    if val >= 10 {
      AppendAssociates(DecimalNat(val / 10), [val % 10 + ZERO], Reverse(s));
    }
  }

  /** Digits least significant first, then the sign, then all reversed in place. */
  method Number2Str(v0: int) returns (s: seq<byte>)
    requires INT64_MIN <= v0 <= INT64_MAX
    ensures s == if v0 == INT64_MIN then [MINUS] else Decimal(v0)
  {
    if v0 == 0 {
      return [ZERO];
    }
    var negative, val := v0 < 0, if v0 < 0 then Negated(v0) else v0;
    ghost var n: nat := if val < 0 then 0 else val;
    s := [];
    hide DecimalNat, Reverse;
    ReverseNothing(n);
    while val > 0
      invariant if v0 == INT64_MIN then val < 0 && s == [] else val >= 0
      invariant v0 != INT64_MIN ==> DecimalNat(n) == if val > 0 then DecimalNat(val) + Reverse(s) else Reverse(s)
    {
      OneDigitMore(val, s);
      s := s + [val % 10 + ZERO];
      val := val / 10;
    }
    if negative {
      ReverseAppend(s, MINUS);
      s := s + [MINUS];
    }
    s := Reverse(s);
  }

  /** The value kept in an int, which wraps around. */
  function ToInt(n: int): int { (n + 0x8000_0000) % 0x1_0000_0000 - 0x8000_0000 }

  /** The negation of a 64-bit integer, which wraps around. */
  function Negated(v: int): int { if v == INT64_MIN then v else -v }

  function Reverse(s: seq<byte>): (r: seq<byte>)
    ensures |r| == |s| && forall i :: 0 <= i < |s| ==> r[i] == s[|s| - 1 - i]
  {
    if s == [] then [] else Reverse(s[1..]) + [s[0]]
  }

  lemma ReverseNothing(n: nat)
    ensures Reverse([]) == [] && DecimalNat(n) + [] == DecimalNat(n)
  {
  }

  lemma ReverseAppend(s: seq<byte>, b: byte)
    ensures Reverse(s + [b]) == [b] + Reverse(s)
  {
  }
}
