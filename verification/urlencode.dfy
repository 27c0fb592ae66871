/** Percent-encoding of announce parameters (section 2.1 of RFC 3986) and its inverse. A Go string
    is a sequence of bytes, written here as characters up to 0xff. */
module UrlEncode {
  import opened Numerals

  /** `excluded` is the compiled exclusion pattern applied to one byte. */
  datatype Encoder = Encoder(excluded: char -> bool, upper: bool)

  predicate IsBytes(s: string) {
    forall i :: 0 <= i < |s| ==> s[i] as int <= 0xff
  }

  function HexDigit(d: nat, upper: bool): (c: char)
    requires d < 16
    ensures DigitValue(c) == d && c != '%' && c != '&'
  {
    if upper && d >= 10 then ('A' as int + d - 10) as char else DigitChar(d)
  }

  function EncodeByte(e: Encoder, b: char): string
    requires b as int <= 0xff
  {
    if e.excluded(b) then [b]
    else ['%', HexDigit(b as int / 16, e.upper), HexDigit(b as int % 16, e.upper)]
  }

  function EncodedBytes(e: Encoder, data: string): string
    requires IsBytes(data)
  {
    if data == "" then ""
    else
      EncodeByte(e, data[0]) + EncodedBytes(e, data[1..])
  }

  method EncodeBytes(e: Encoder, data: string) returns (b: string)
    requires IsBytes(data)
    ensures b == EncodedBytes(e, data)
  {
    b := "";
    for i := 0 to |data|
      invariant EncodedBytes(e, data) == b + EncodedBytes(e, data[i..])
    {
      assert data[i..][1..] == data[i + 1..];
      b := b + EncodeByte(e, data[i]);
    }
  }

  // ----- UTF-8 (RFC 3629), as Go's utf8.DecodeRuneInString and utf8.EncodeRune -----

  const RUNE_ERROR := 0xfffd

  predicate InRange(s: string, i: nat, lo: int, hi: int) {
    i < |s| && lo <= s[i] as int <= hi
  }

  /** The first rune and the number of bytes it takes; an ill-formed start gives (RUNE_ERROR, 1). */
  function DecodeRune(s: string): (r: (nat, nat))
    requires s != "" && IsBytes(s)
    ensures 1 <= r.1 <= |s|
    ensures r.0 < 0xd800 || 0xdfff < r.0 < 0x11_0000
  {
    var b := s[0] as int;
    if b < 0x80 then (b, 1)
    else if 0xc2 <= b <= 0xdf && InRange(s, 1, 0x80, 0xbf) then
      ((b - 0xc0) * 64 + (s[1] as int - 0x80), 2)
    else if 0xe0 <= b <= 0xef
         && InRange(s, 1, if b == 0xe0 then 0xa0 else 0x80, if b == 0xed then 0x9f else 0xbf)
         && InRange(s, 2, 0x80, 0xbf) then
      ((b - 0xe0) * 4096 + (s[1] as int - 0x80) * 64 + (s[2] as int - 0x80), 3)
    else if 0xf0 <= b <= 0xf4
         && InRange(s, 1, if b == 0xf0 then 0x90 else 0x80, if b == 0xf4 then 0x8f else 0xbf)
         && InRange(s, 2, 0x80, 0xbf) && InRange(s, 3, 0x80, 0xbf) then
      ((b - 0xf0) * 262144 + (s[1] as int - 0x80) * 4096 + (s[2] as int - 0x80) * 64 + (s[3] as int - 0x80), 4)
    else (RUNE_ERROR, 1)
  }

  function EncodeRune(r: nat): (s: string)
    requires r < 0x11_0000
    ensures IsBytes(s)
  {
    if r < 0x80 then [r as char]
    else if r < 0x800 then [(0xc0 + r / 64) as char, (0x80 + r % 64) as char]
    else if r < 0x1_0000 then [(0xe0 + r / 4096) as char, (0x80 + r / 64 % 64) as char,
          (0x80 + r % 64) as char]
    else [(0xf0 + r / 262144) as char, (0x80 + r / 4096 % 64) as char, (0x80 + r / 64 % 64) as char,
          (0x80 + r % 64) as char]
  }

  /** What one step of EncodeString stands for: the bytes sent for the rune at the front of `s`. */
  function NarrowRune(s: string): (b: string)
    requires s != "" && IsBytes(s)
    ensures IsBytes(b)
  {
    var (ch, size) := DecodeRune(s);
    if ch == RUNE_ERROR && size == 1 then
      [s[0]]
    else if ch <= 0xff then [ch as char]
    else EncodeRune(ch)
  }

  /** The bytes a tracker receives for the string `s`: one per rune up to 0xff, UTF-8 for the others. */
  function Narrow(s: string): (b: string)
    requires IsBytes(s)
    ensures IsBytes(b)
    decreases |s|
  {
    if s == "" then ""
    else NarrowRune(s) + Narrow(s[DecodeRune(s).1..])
  }

  method EncodeFirstRune(e: Encoder, s: string) returns (piece: string, size: nat)
    requires s != "" && IsBytes(s)
    ensures size == DecodeRune(s).1 && piece == EncodedBytes(e, NarrowRune(s))
  {
    var decoded := DecodeRune(s);
    size := decoded.1;
    if decoded.0 == RUNE_ERROR && size == 1 {
      EncodedSingle(e, s[0]);
      piece := EncodeByte(e, s[0]);
    } else if decoded.0 <= 0xff {
      EncodedSingle(e, decoded.0 as char);
      piece := EncodeByte(e, decoded.0 as char);
    } else {
      piece := EncodeBytes(e, EncodeRune(decoded.0));
    }
  }

  method EncodeString(e: Encoder, text: string) returns (b: string)
    requires IsBytes(text)
    ensures b == EncodedBytes(e, Narrow(text))
  {
    hide EncodedBytes, Narrow, NarrowRune, DecodeRune;
    b := "";
    var s := text;
    assert b + EncodedBytes(e, Narrow(s)) == EncodedBytes(e, Narrow(text));
    while |s| > 0
      invariant IsBytes(s)
      invariant EncodedBytes(e, Narrow(text)) == b + EncodedBytes(e, Narrow(s))
      decreases |s|
    {
      var piece, size := EncodeFirstRune(e, s);
      NarrowFirst(s);
      EncodedBytesConcat(e, NarrowRune(s), Narrow(s[size..]));
      Regrouped(b, piece, EncodedBytes(e, Narrow(s[size..])));
      b := b + piece;
      s := s[size..];
    }
    NothingEncodes(e);
    assert s == "";
  }

  lemma NarrowFirst(s: string)
    requires s != "" && IsBytes(s)
    ensures Narrow(s) == NarrowRune(s) + Narrow(s[DecodeRune(s).1..])
  {
  }

  lemma NothingEncodes(e: Encoder)
    ensures EncodedBytes(e, Narrow("")) == ""
  {
  }

  lemma EncodedSingle(e: Encoder, b: char)
    requires b as int <= 0xff
    ensures IsBytes([b]) && EncodedBytes(e, [b]) == EncodeByte(e, b)
  {
    assert [b][1..] == "";
  }

  lemma {:induction false} EncodedBytesConcat(e: Encoder, a: string, b: string)
    requires IsBytes(a) && IsBytes(b)
    ensures IsBytes(a + b) && EncodedBytes(e, a + b) == EncodedBytes(e, a) + EncodedBytes(e, b)
  {
    if a == "" {
      assert a + b == b;
    } else {
      assert (a + b)[0] == a[0] && (a + b)[1..] == a[1..] + b;
      EncodedBytesConcat(e, a[1..], b);
      assert EncodeByte(e, a[0]) + (EncodedBytes(e, a[1..]) + EncodedBytes(e, b))
          == EncodedBytes(e, a) + EncodedBytes(e, b);
    }
  }

  // ----- Decoding -----

  /** Go's url.PathUnescape: '%' must start two hex digits; every other byte, '+' included, stands for itself. */
  function PathUnescape(s: string): Option<string>
    decreases |s|
  {
    if s == "" then Some("")
    else if s[0] == '%' then
      if |s| < 3 || !IsHex(s[1]) || !IsHex(s[2]) then None
      else
        var rest := PathUnescape(s[3..]);
        if rest.None? then None
        else Some([(DigitValue(s[1]) * 16 + DigitValue(s[2])) as char] + rest.value)
    else
      var rest := PathUnescape(s[1..]);
      if rest.None? then None else Some([s[0]] + rest.value)
  }

  predicate IsHex(c: char) {
    0 <= DigitValue(c) < 16
  }

  lemma {:induction false} PlainTextUnescapes(s: string)
    requires '%' !in s
    ensures PathUnescape(s) == Some(s)
  {
    if s == "" {
    } else {
      PlainTextUnescapes(s[1..]);
      assert s == [s[0]] + s[1..];
    }
  }

  /** Decoding recovers the encoded bytes exactly when it is not misled by an unencoded '%'. */
  lemma {:induction false} EncodingIsLossless(e: Encoder, data: string)
    requires IsBytes(data) && !e.excluded('%')
    ensures PathUnescape(EncodedBytes(e, data)) == Some(data)
  {
    if data == "" {
    } else {
      EncodingIsLossless(e, data[1..]);
      UnescapeStep(e, data[0], EncodedBytes(e, data[1..]));
      assert data == [data[0]] + data[1..];
    }
  }

  lemma UnescapeStep(e: Encoder, b: char, tail: string)
    requires b as int <= 0xff && !e.excluded('%') && PathUnescape(tail).Some?
    ensures PathUnescape(EncodeByte(e, b) + tail) == Some([b] + PathUnescape(tail).value)
  {
    var code := EncodeByte(e, b);
    assert (code + tail)[|code|..] == tail;
    assert b as int / 16 * 16 + b as int % 16 == b as int;
  }

  /** Leaving '%' out of the exclusion set is what makes the encoding invertible. */
  lemma LosslessExactly(e: Encoder)
    ensures !e.excluded('%') <==> forall data | IsBytes(data) :: PathUnescape(EncodedBytes(e, data)) == Some(data)
  {
    if e.excluded('%') {
      EncodedSingle(e, '%');
      assert PathUnescape(EncodedBytes(e, "%")).None?;
    } else {
      forall data | IsBytes(data) ensures PathUnescape(EncodedBytes(e, data)) == Some(data) {
        EncodingIsLossless(e, data);
      }
    }
  }

  lemma {:induction false} EncodedHasNoAmpersand(e: Encoder, data: string)
    requires IsBytes(data) && !e.excluded('&')
    ensures '&' !in EncodedBytes(e, data)
  {
    if data == "" {
    } else {
      EncodedHasNoAmpersand(e, data[1..]);
    }
  }

  // ----- Peer ids: strings of runes up to 0xff -----

  predicate ByteRunes(runes: seq<nat>) {
    forall i :: 0 <= i < |runes| ==> runes[i] <= 0xff
  }

  function RunesToString(runes: seq<nat>): (s: string)
    requires ByteRunes(runes)
    ensures IsBytes(s)
  {
    if runes == [] then ""
    else
      EncodeRune(runes[0]) + RunesToString(runes[1..])
  }

  function RunesToBytes(runes: seq<nat>): (s: string)
    requires ByteRunes(runes)
    ensures IsBytes(s) && |s| == |runes|
  {
    if runes == [] then ""
    else
      [runes[0] as char] + RunesToBytes(runes[1..])
  }

  lemma DecodeEncoded(r: nat, tail: string)
    requires r <= 0xff && IsBytes(tail)
    ensures var s := EncodeRune(r) + tail;
            IsBytes(s) && DecodeRune(s) == (r, |EncodeRune(r)|) && s[|EncodeRune(r)|..] == tail
  {
    var s := EncodeRune(r) + tail;
    assert s[0] == EncodeRune(r)[0];
    if r >= 0x80 {
      assert s[1] == EncodeRune(r)[1];
    }
  }

  /** A string of runes up to 0xff is sent as one byte per rune. */
  lemma {:induction false} NarrowRunes(runes: seq<nat>)
    requires ByteRunes(runes)
    ensures Narrow(RunesToString(runes)) == RunesToBytes(runes)
  {
    if runes == [] {
    } else {
      NarrowRunes(runes[1..]);
      DecodeEncoded(runes[0], RunesToString(runes[1..]));
    }
  }

  // ----- What is sent for each byte and each rune -----

  /** A byte the pattern excludes is sent as it is, any other as '%' and two digits of the wanted case. */
  lemma EncodedByteIs(e: Encoder, b: char)
    requires b as int <= 0xff
    ensures e.excluded(b) ==> EncodeByte(e, b) == [b]
    ensures !e.excluded(b) ==>
              var digits := if e.upper then "0123456789ABCDEF" else "0123456789abcdef";
              EncodeByte(e, b) == ['%', digits[b as int / 16], digits[b as int % 16]]
  {
  }

  /** What an encoder makes of `runes`: a byte for each up to 0xff, UTF-8 for the others. */
  function AsSent(runes: seq<nat>): (b: string)
    requires Scalars(runes)
    ensures IsBytes(b)
  {
    if runes == [] then ""
    else (if runes[0] <= 0xff then [runes[0] as char] else EncodeRune(runes[0])) + AsSent(runes[1..])
  }

  predicate Scalar(r: nat) {
    r < 0xd800 || 0xdfff < r < 0x11_0000
  }

  predicate Scalars(runes: seq<nat>) {
    forall i :: 0 <= i < |runes| ==> Scalar(runes[i])
  }

  /** The UTF-8 text of some runes. */
  function Utf8(runes: seq<nat>): (s: string)
    requires Scalars(runes)
    ensures IsBytes(s)
  {
    if runes == [] then "" else EncodeRune(runes[0]) + Utf8(runes[1..])
  }

  /** The decoder of section 3 of RFC 3629 inverts the encoder for every scalar value. */
  lemma EveryRuneDecodes(r: nat, tail: string)
    requires Scalar(r) && IsBytes(tail)
    ensures var s := EncodeRune(r) + tail;
            IsBytes(s) && DecodeRune(s) == (r, |EncodeRune(r)|) && s[|EncodeRune(r)|..] == tail
  {
    if r < 0x800 {
      ShortRuneDecodes(r, tail);
    } else if r < 0x1_0000 {
      ThreeBytesDecode(r, tail);
    } else {
      FourBytesDecode(r, tail);
    }
  }

  lemma ShortRuneDecodes(r: nat, tail: string)
    requires r < 0x800 && IsBytes(tail)
    ensures var s := EncodeRune(r) + tail;
            IsBytes(s) && DecodeRune(s) == (r, |EncodeRune(r)|) && s[|EncodeRune(r)|..] == tail
  {
    var s := EncodeRune(r) + tail;
    assert s[0] == EncodeRune(r)[0];
    if r >= 0x80 {
      assert s[1] == EncodeRune(r)[1];
    }
  }

  lemma ThreeBytesDecode(r: nat, tail: string)
    requires 0x800 <= r < 0x1_0000 && Scalar(r) && IsBytes(tail)
    ensures var s := EncodeRune(r) + tail;
            IsBytes(s) && DecodeRune(s) == (r, 3) && s[3..] == tail && |EncodeRune(r)| == 3
  {
    var s, code := EncodeRune(r) + tail, EncodeRune(r);
    assert s[0] == code[0] && s[1] == code[1] && s[2] == code[2];
    SixBits(r);
  }

  lemma FourBytesDecode(r: nat, tail: string)
    requires 0x1_0000 <= r < 0x11_0000 && IsBytes(tail)
    ensures var s := EncodeRune(r) + tail;
            IsBytes(s) && DecodeRune(s) == (r, 4) && s[4..] == tail && |EncodeRune(r)| == 4
  {
    var s, code := EncodeRune(r) + tail, EncodeRune(r);
    assert s[0] == code[0] && s[1] == code[1] && s[2] == code[2] && s[3] == code[3];
    SixBits(r);
  }

  lemma SixBits(r: nat)
    ensures r / 4096 == r / 64 / 64 && r / 262144 == r / 4096 / 64
    ensures r == r / 64 * 64 + r % 64 && r / 64 == r / 4096 * 64 + r / 64 % 64
    ensures r / 4096 == r / 262144 * 64 + r / 4096 % 64
  {
  }

  /** A text of any runes is sent as the law says, rune by rune. */
  lemma {:induction false} NarrowIsSent(runes: seq<nat>)
    requires Scalars(runes)
    ensures Narrow(Utf8(runes)) == AsSent(runes)
    decreases |runes|
  {
    hide DecodeRune;
    if runes == [] {
    } else {
      NarrowIsSent(runes[1..]);
      EveryRuneDecodes(runes[0], Utf8(runes[1..]));
    }
  }

  /** Bytes that start no rune are sent as they are. */
  lemma StrayByteIsSent(b: char, tail: string)
    requires 0x80 <= b as int <= 0xc1 || 0xf5 <= b as int <= 0xff
    requires IsBytes(tail)
    ensures IsBytes([b] + tail) && Narrow([b] + tail) == [b] + Narrow(tail)
  {
    assert ([b] + tail)[1..] == tail;
  }

  // ----- Peer ids sent as they are -----

  predicate PlainRunes(runes: seq<nat>) {
    forall i :: 0 <= i < |runes| ==> runes[i] < 0x80 && runes[i] != '%' as int
  }

  predicate IsAscii(s: string) {
    forall i :: 0 <= i < |s| ==> s[i] as int < 0x80
  }

  /** ASCII text is sent byte by byte. */
  lemma {:induction false} NarrowAscii(s: string)
    requires IsAscii(s)
    ensures IsBytes(s) && Narrow(s) == s
    decreases |s|
  {
    if s == "" {
    } else {
      NarrowAscii(s[1..]);
      assert s == [s[0]] + s[1..];
    }
  }

  /** The text of some runes starts with that of the first, and decoding goes past a rune that is no '%'. */
  lemma RunesStart(runes: seq<nat>)
    requires ByteRunes(runes) && runes != []
    ensures RunesToBytes(runes) == [runes[0] as char] + RunesToBytes(runes[1..])
    ensures RunesToString(runes) == EncodeRune(runes[0]) + RunesToString(runes[1..])
    ensures runes[0] != '%' as int && PathUnescape(RunesToString(runes)).Some? ==>
              && PathUnescape(RunesToString(runes[1..])).Some?
              && PathUnescape(RunesToString(runes)).value
                 == EncodeRune(runes[0]) + PathUnescape(RunesToString(runes[1..])).value
  {
    if runes[0] != '%' as int {
      UnescapePlain(EncodeRune(runes[0]), RunesToString(runes[1..]));
    }
  }

  lemma {:induction false} UnescapePlain(front: string, tail: string)
    requires '%' !in front
    ensures PathUnescape(front + tail) ==
            if PathUnescape(tail).None? then None else Some(front + PathUnescape(tail).value)
    decreases |front|
  {
    if front == "" {
      assert front + tail == tail;
      assert PathUnescape(tail).Some? ==> front + PathUnescape(tail).value == PathUnescape(tail).value;
    } else {
      assert (front + tail)[1..] == front[1..] + tail;
      UnescapePlain(front[1..], tail);
      assert PathUnescape(tail).Some? ==>
               [front[0]] + (front[1..] + PathUnescape(tail).value) == front + PathUnescape(tail).value;
    }
  }

  lemma CodeOf(r: nat)
    requires r <= 0xff
    ensures r < 0x80 ==> EncodeRune(r) == [r as char]
    ensures r >= 0x80 ==> |EncodeRune(r)| == 2 && EncodeRune(r)[0] as int >= 0x80 && EncodeRune(r)[1] as int >= 0x80
  {
  }

  /** The text starts with a hex digit only if the first rune is that digit. */
  lemma OneByte(runes: seq<nat>)
    requires ByteRunes(runes) && RunesToString(runes) != "" && IsHex(RunesToString(runes)[0])
    ensures runes != [] && runes[0] < 0x80
    ensures RunesToString(runes) == [runes[0] as char] + RunesToString(runes[1..])
    ensures RunesToBytes(runes) == [runes[0] as char] + RunesToBytes(runes[1..])
  {
    CodeOf(runes[0]);
    assert RunesToString(runes)[0] == EncodeRune(runes[0])[0];
  }

  lemma UnescapeEscape(tail: string)
    requires PathUnescape("%" + tail).Some?
    ensures |tail| >= 2 && IsHex(tail[0]) && IsHex(tail[1]) && PathUnescape(tail[2..]).Some?
    ensures |PathUnescape("%" + tail).value| > 0
    ensures PathUnescape("%" + tail).value[1..] == PathUnescape(tail[2..]).value
  {
    hide DigitValue;
    var text := "%" + tail;
    assert text[0] == '%' && text[3..] == tail[2..];
    assert text[1] == tail[0] && text[2] == tail[1];
  }

  /** A '%' that can be decoded is followed by two digits, of one byte each. */
  lemma EscapeStart(runes: seq<nat>)
    requires ByteRunes(runes) && runes != [] && runes[0] == '%' as int
    requires PathUnescape(RunesToString(runes)).Some?
    ensures |runes| >= 3 && runes[1] < 0x80 && runes[2] < 0x80
    ensures RunesToBytes(runes) == "%" + [runes[1] as char, runes[2] as char] + RunesToBytes(runes[3..])
    ensures PathUnescape(RunesToString(runes[3..])).Some? && |PathUnescape(RunesToString(runes)).value| > 0
    ensures PathUnescape(RunesToString(runes)).value[1..] == PathUnescape(RunesToString(runes[3..])).value
  {
    hide PathUnescape, RunesToString, RunesToBytes, EncodeRune;
    var first := runes[1..];
    RunesStart(runes);
    CodeOf(runes[0]);
    var text := RunesToString(first);
    assert RunesToString(runes) == "%" + text;
    UnescapeEscape(text);
    OneByte(first);
    var second := runes[2..];
    assert first[1..] == second && text[1] == RunesToString(second)[0];
    OneByte(second);
    var third := runes[3..];
    assert second[1..] == third && text[2..] == RunesToString(third);
    ThreeFirst(runes[1] as char, runes[2] as char, RunesToBytes(third));
  }

  lemma ThreeFirst(a: char, b: char, tail: string)
    ensures ['%'] + ([a] + ([b] + tail)) == "%" + [a, b] + tail
  {
  }

  lemma DropFront(a: string, b: string, x: char, c: string)
    requires a != "" && a + b == [x] + c
    ensures a[0] == x && a[1..] + b == c
  {
    assert (a + b)[0] == a[0] && ([x] + c)[0] == x;
    assert (a + b)[1..] == a[1..] + b && ([x] + c)[1..] == c;
  }

  lemma Regrouped(a: string, b: string, c: string)
    ensures a + (b + c) == (a + b) + c
  {
  }

  /** Bytes from 0x80 on that are decoded too early are never caught up with. */
  lemma {:induction false} NeverCaughtUp(early: string, runes: seq<nat>)
    requires ByteRunes(runes) && early != "" && (forall i :: 0 <= i < |early| ==> early[i] as int >= 0x80)
    requires PathUnescape(RunesToString(runes)).Some?
    ensures early + PathUnescape(RunesToString(runes)).value != RunesToBytes(runes)
    decreases |runes|
  {
    hide PathUnescape, RunesToString, EncodeRune;
    var decoded := PathUnescape(RunesToString(runes)).value;
    if runes == [] {
    } else if early + decoded == RunesToBytes(runes) {
      var code, bytes := EncodeRune(runes[0]), RunesToBytes(runes[1..]);
      DropFront(early, decoded, runes[0] as char, bytes);
      CodeOf(runes[0]);
      RunesStart(runes);
      Regrouped(early[1..], code, PathUnescape(RunesToString(runes[1..])).value);
      NeverCaughtUp(early[1..] + code, runes[1..]);
    }
  }

  lemma NothingDecodes()
    ensures RunesToString([]) == "" && PathUnescape("") == Some("")
  {
  }

  /** Nor are ASCII characters that decoding has left out. */
  lemma {:induction false} NeverMadeUp(late: string, runes: seq<nat>)
    requires ByteRunes(runes) && late != "" && IsAscii(late)
    requires PathUnescape(RunesToString(runes)).Some?
    ensures PathUnescape(RunesToString(runes)).value != late + RunesToBytes(runes)
    decreases |runes|
  {
    hide PathUnescape, RunesToString, EncodeRune;
    var decoded, bytes := PathUnescape(RunesToString(runes)).value, RunesToBytes(runes);
    if runes == [] {
      assert RunesToString(runes) == "" && PathUnescape("") == Some("") by {
        NothingDecodes();
      }
    } else if decoded == late + bytes {
      hide RunesToBytes;
      if runes[0] == '%' as int {
        EscapeStart(runes);
        var digits := [runes[1] as char, runes[2] as char];
        DropFront(late, bytes, decoded[0], decoded[1..]);
        Regrouped(late[1..], "%" + digits, RunesToBytes(runes[3..]));
        NeverMadeUp(late[1..] + ("%" + digits), runes[3..]);
      } else {
        RunesStart(runes);
        CodeOf(runes[0]);
        var rest := PathUnescape(RunesToString(runes[1..])).value;
        assert decoded[0] == EncodeRune(runes[0])[0] == late[0];
        DropFront(late, bytes, runes[0] as char, rest);
        Regrouped(late[1..], [runes[0] as char], RunesToBytes(runes[1..]));
        NeverMadeUp(late[1..] + [runes[0] as char], runes[1..]);
      }
    }
  }

  lemma NoEscapeDecodes(runes: seq<nat>)
    requires ByteRunes(runes) && runes != [] && runes[0] == '%' as int
    requires PathUnescape(RunesToString(runes)).Some?
    ensures PathUnescape(RunesToString(runes)).value != RunesToBytes(runes)
  {
    hide PathUnescape, RunesToString, RunesToBytes;
    EscapeStart(runes);
    var digits := [runes[1] as char, runes[2] as char];
    NeverMadeUp(digits, runes[3..]);
    assert ("%" + digits + RunesToBytes(runes[3..]))[1..] == digits + RunesToBytes(runes[3..]);
  }

  /** Where the text decodes to the bytes, the first rune is plain and so does the rest. */
  lemma FirstIsPlain(runes: seq<nat>)
    requires ByteRunes(runes) && runes != [] && PathUnescape(RunesToString(runes)) == Some(RunesToBytes(runes))
    ensures runes[0] < 0x80 && runes[0] != '%' as int
    ensures PathUnescape(RunesToString(runes[1..])) == Some(RunesToBytes(runes[1..]))
  {
    hide PathUnescape, RunesToString, RunesToBytes, EncodeRune;
    if runes[0] == '%' as int {
      NoEscapeDecodes(runes);
    } else {
      RunesStart(runes);
      CodeOf(runes[0]);
      var code, rest := EncodeRune(runes[0]), PathUnescape(RunesToString(runes[1..])).value;
      DropFront(code, rest, runes[0] as char, RunesToBytes(runes[1..]));
      if runes[0] < 0x80 {
        assert code[1..] + rest == rest;
      } else {
        NeverCaughtUp(code[1..], runes[1..]);
      }
    }
  }

  lemma {:induction false} DecodedArePlain(runes: seq<nat>)
    requires ByteRunes(runes) && PathUnescape(RunesToString(runes)) == Some(RunesToBytes(runes))
    ensures PlainRunes(runes)
    decreases |runes|
  {
    hide PathUnescape, RunesToString, RunesToBytes;
    if runes == [] {
    } else {
      FirstIsPlain(runes);
      DecodedArePlain(runes[1..]);
      MorePlainRunes(runes);
    }
  }

  /** A peer id sent as it is decodes to its bytes exactly when its runes are below 0x80 and none is '%'. */
  lemma RawRunesDecodeExactly(runes: seq<nat>)
    requires ByteRunes(runes)
    ensures PathUnescape(RunesToString(runes)) == Some(RunesToBytes(runes)) <==> PlainRunes(runes)
  {
    if PlainRunes(runes) {
      PlainRunesText(runes);
      PlainTextUnescapes(RunesToString(runes));
    } else if PathUnescape(RunesToString(runes)) == Some(RunesToBytes(runes)) {
      DecodedArePlain(runes);
    }
  }

  lemma MorePlainRunes(runes: seq<nat>)
    requires runes != [] && runes[0] < 0x80 && runes[0] != '%' as int && PlainRunes(runes[1..])
    ensures PlainRunes(runes)
  {
    assert forall i :: 1 <= i < |runes| ==> runes[i] == runes[1..][i - 1];
  }

  /** Runes below 0x80 are their own text. */
  lemma {:induction false} PlainRunesText(runes: seq<nat>)
    requires PlainRunes(runes)
    ensures ByteRunes(runes) && RunesToString(runes) == RunesToBytes(runes)
    ensures '%' !in RunesToString(runes)
    ensures '&' as int !in runes ==> '&' !in RunesToString(runes)
    decreases |runes|
  {
    if runes == [] {
    } else {
      PlainRunesText(runes[1..]);
    }
  }
}
