/** Number formatting and parsing as Go's strconv does it: unsigned text in a base,
    optional sign, and rejection of values that do not fit the requested width. */
module Numerals {

  datatype Option<+T> = None | Some(value: T)

  const MAX_INT64: int := 0x7fff_ffff_ffff_ffff
  const MIN_INT64: int := -0x8000_0000_0000_0000

  predicate Int64(n: int) {
    MIN_INT64 <= n <= MAX_INT64
  }

  function Min(a: int, b: int): int {
    if a < b then a else b
  }

  function Max(a: int, b: int): int {
    if a > b then a else b
  }

  function AtLeastZero(n: int): int {
    Max(n, 0)
  }

  /** 64-bit two's complement wrap-around. */
  function WrapInt64(n: int): (w: int)
    ensures MIN_INT64 <= w <= MAX_INT64
    ensures MIN_INT64 <= n <= MAX_INT64 ==> w == n
    ensures (w - n) % 0x1_0000_0000_0000_0000 == 0
  {
    (n - MIN_INT64) % 0x1_0000_0000_0000_0000 + MIN_INT64
  }

  function Pow2(bits: nat): (p: nat)
    ensures p > 0
  {
    if bits == 0 then 1 else 2 * Pow2(bits - 1)
  }

  predicate IsDecimal(c: char) {
    '0' <= c <= '9'
  }

  /** The digit a character stands for in any base up to 36; -1 when it stands for none. */
  function DigitValue(c: char): int {
    if '0' <= c <= '9' then c as int - '0' as int
    else if 'a' <= c <= 'z' then c as int - 'a' as int + 10
    else if 'A' <= c <= 'Z' then c as int - 'A' as int + 10
    else -1
  }

  function DigitChar(d: nat): (c: char)
    requires d < 16
    ensures DigitValue(c) == d && c == "0123456789abcdef"[d]
    ensures d < 10 <==> IsDecimal(c)
  {
    if d < 10 then ('0' as int + d) as char else ('a' as int + d - 10) as char
  }

  function FormatUint(n: nat, base: nat): (s: string)
    requires 2 <= base <= 16
    ensures |s| > 0
    decreases n
  {
    if n < base then [DigitChar(n)] else FormatUint(n / base, base) + [DigitChar(n % base)]
  }

  function FormatInt(n: int): string {
    if n < 0 then "-" + FormatUint(-n, 10) else FormatUint(n, 10)
  }

  /** The value of a string of digits, unbounded; None when some character is not a digit. */
  function DigitsValue(s: string, base: nat): Option<nat> {
    if s == "" then Some(0)
    else
      var high := DigitsValue(s[..|s| - 1], base);
      var d := DigitValue(s[|s| - 1]);
      if high.None? || d < 0 || d >= base then None else Some(high.value * base + d)
  }

  function ParseUint(s: string, base: nat, bits: nat): Option<nat> {
    var v := DigitsValue(s, base);
    if s == "" || v.None? || v.value >= Pow2(bits) then None else v
  }

  function ParseInt(s: string, bits: nat): Option<int>
    requires bits > 0
  {
    if s == "" then None
    else
      var negative := s[0] == '-';
      var digits := if s[0] == '-' || s[0] == '+' then s[1..] else s;
      var v := DigitsValue(digits, 10);
      if digits == "" || v.None? then None
      else if negative then (if v.value > Pow2(bits - 1) then None else Some(0 - v.value))
      else if v.value >= Pow2(bits - 1) then None else Some(v.value)
  }

  lemma Pow2Values()
    ensures Pow2(8) == 256 && Pow2(16) == 0x1_0000
    ensures Pow2(31) == 0x8000_0000 && Pow2(32) == 0x1_0000_0000
    ensures Pow2(63) == 0x8000_0000_0000_0000 && Pow2(64) == 0x1_0000_0000_0000_0000
  {
    hide Pow2;
    Pow2Small();
    Pow2Sum(8, 7);
    Pow2Sum(8, 8);
    Pow2Sum(16, 15);
    Pow2Sum(16, 16);
    Pow2Sum(32, 31);
    Pow2Sum(32, 32);
  }

  lemma Pow2Small()
    ensures Pow2(7) == 128 && Pow2(8) == 256
  {
    assert Pow2(4) == 16;
  }

  lemma {:induction false} Pow2Sum(a: nat, b: nat)
    ensures Pow2(a + b) == Pow2(a) * Pow2(b)
  {
    if a == 0 {
    } else {
      Pow2Sum(a - 1, b);
    }
  }

  /** Reading back a formatted number gives the number. */
  lemma {:induction false} FormatUintRoundTrip(n: nat, base: nat)
    requires 2 <= base <= 16
    ensures DigitsValue(FormatUint(n, base), base) == Some(n)
    decreases n
  {
    if n >= base {
      var q, r := QuotientRemainder(n, base);
      FormatUintRoundTrip(q, base);
      DigitsValueAppend(FormatUint(q, base), r, base);
      assert FormatUint(n, base) == FormatUint(q, base) + [DigitChar(r)];
    } else {
      DigitsValueAppend("", n, base);
      assert "" + [DigitChar(n)] == [DigitChar(n)];
    }
  }

  lemma QuotientRemainder(n: nat, base: nat) returns (q: nat, r: nat)
    requires 2 <= base <= n && base <= 16
    ensures q == n / base && r == n % base && q * base + r == n && q < n && r < base
  {
    q, r := n / base, n % base;
  }

  lemma {:induction false} FormatUintDigits(n: nat, base: nat)
    requires 2 <= base <= 16
    ensures forall c :: c in FormatUint(n, base) ==> 0 <= DigitValue(c) < base
    ensures base == 10 ==> forall c :: c in FormatUint(n, base) ==> IsDecimal(c)
    decreases n
  {
    hide DigitValue, DigitChar, IsDecimal;
    if n < base {
      assert FormatUint(n, base) == [DigitChar(n)];
    } else {
      FormatUintDigits(n / base, base);
    }
  }

  lemma DigitsValueAppend(s: string, d: nat, base: nat)
    requires d < base <= 16 && DigitsValue(s, base).Some?
    ensures DigitsValue(s + [DigitChar(d)], base) == Some(DigitsValue(s, base).value * base + d)
  {
    assert (s + [DigitChar(d)])[..|s|] == s;
  }

  lemma SignedDigits(digits: string, v: nat, bits: nat)
    requires bits > 0 && digits != "" && DigitsValue(digits, 10) == Some(v) && DigitValue(digits[0]) >= 0
    ensures v < Pow2(bits - 1) ==> ParseInt(digits, bits) == Some(v)
    ensures v <= Pow2(bits - 1) ==> ParseInt("-" + digits, bits) == Some(0 - v)
  {
    assert ("-" + digits)[1..] == digits;
  }

  /** A decimal integer that fits the width survives formatting and parsing. */
  lemma FormatIntRoundTrip(n: int, bits: nat)
    requires bits > 0 && 0 - Pow2(bits - 1) <= n < Pow2(bits - 1)
    ensures ParseInt(FormatInt(n), bits) == Some(n)
  {
    var v := if n < 0 then 0 - n else n;
    FormatUintRoundTrip(v, 10);
    FormatUintDigits(v, 10);
    SignedDigits(FormatUint(v, 10), v, bits);
  }

  /** Decimal text holds nothing but digits and a sign. */
  lemma FormatIntLacks(n: int, c: char)
    requires c != '-' && !IsDecimal(c)
    ensures c !in FormatInt(n) && FormatInt(n) != ""
  {
    FormatUintDigits(if n < 0 then 0 - n else n, 10);
  }

  lemma FormatUintParses(n: nat, base: nat, bits: nat)
    requires 2 <= base <= 16 && n < Pow2(bits)
    ensures ParseUint(FormatUint(n, base), base, bits) == Some(n)
  {
    FormatUintRoundTrip(n, base);
  }

  lemma FormatUintInjective(m: nat, n: nat)
    requires FormatUint(m, 10) == FormatUint(n, 10)
    ensures m == n
  {
    FormatUintRoundTrip(m, 10);
    FormatUintRoundTrip(n, 10);
  }

  /** A number is written without leading zeros, so it has one writing only. */
  lemma {:induction false} NoLeadingZero(n: nat, base: nat)
    requires 2 <= base <= 16
    ensures FormatUint(n, base)[0] == '0' <==> n == 0
    decreases n
  {
    if n < base {
    } else {
      NoLeadingZero(n / base, base);
    }
  }

  /** A written number is accepted exactly when it fits the width, with or without a plus sign. */
  lemma ParseIntExactly(n: int, bits: nat)
    requires bits > 0
    ensures ParseInt(FormatInt(n), bits) == if 0 - Pow2(bits - 1) <= n < Pow2(bits - 1) then Some(n) else None
    ensures n >= 0 ==> ParseInt("+" + FormatInt(n), bits) == ParseInt(FormatInt(n), bits)
  {
    hide FormatUint, DigitsValue, DigitValue, Pow2;
    var v := if n < 0 then 0 - n else n;
    var digits := FormatUint(v, 10);
    FormatUintRoundTrip(v, 10);
    FormatUintDigits(v, 10);
    assert digits[0] in digits;
    DigitIsNoSign(digits[0]);
    assert ("-" + digits)[1..] == digits && ("+" + digits)[1..] == digits;
  }

  lemma DigitIsNoSign(c: char)
    requires DigitValue(c) >= 0
    ensures c != '-' && c != '+'
  {
  }

  lemma ParseUintExactly(n: nat, base: nat, bits: nat)
    requires 2 <= base <= 16
    ensures ParseUint(FormatUint(n, base), base, bits) == if n < Pow2(bits) then Some(n) else None
  {
    FormatUintRoundTrip(n, base);
  }
}
