/** The tracker's bencode reader (BEP 3, section "bencoding"). Bytes are characters; nothing
    below depends on a character being at most 0xff. */
module Bencode {
  import opened Numerals

  const MAX_BENCODE_DEPTH := 200

  datatype Value =
    | Int(n: int)
    | Str(text: string)
    | List(items: seq<Value>)
    | Dict(entries: map<string, Value>)

  datatype Error =
    | TooDeep
    | UnexpectedEnd
    | UnterminatedInt
    | BadNumber
    | KeyNotString
    | UnterminatedDict
    | UnterminatedList
    | UnexpectedByte
    | InvalidString
    | LengthOutOfRange

  datatype Parsed<+T> = Ok(value: T, rest: string) | Err(error: Error)

  /** Position of the first `c`, or -1. */
  function IndexByte(data: string, c: char): (i: int)
    ensures -1 <= i < |data|
    ensures i >= 0 ==> data[i] == c && c !in data[..i]
    ensures i < 0 ==> c !in data
  {
    if data == "" then -1
    else if data[0] == c then 0
    else
      var j := IndexByte(data[1..], c);
      if j < 0 then -1 else j + 1
  }

  function ParseIntToken(data: string): (r: Parsed<Value>)
    requires |data| > 0
    ensures r.Ok? ==> |r.rest| < |data|
  {
    var end := IndexByte(data, 'e');
    if end < 0 then Err(UnterminatedInt)
    else if end == 0 then Err(BadNumber)
    else
      var n := ParseInt(data[1..end], 64);
      if n.None? then Err(BadNumber) else Ok(Int(n.value), data[end + 1..])
  }

  function ParseStringToken(data: string): (r: Parsed<Value>)
    requires |data| > 0
    ensures r.Ok? ==> |r.rest| < |data|
  {
    if !IsDecimal(data[0]) then Err(UnexpectedByte)
    else
      var colon := IndexByte(data, ':');
      if colon < 0 then Err(InvalidString)
      else
        var n := ParseInt(data[..colon], 64);
        if n.None? then Err(BadNumber)
        else
          var start := colon + 1;
          if n.value < 0 || n.value > |data| - start then Err(LengthOutOfRange)
          else Ok(Str(data[start..start + n.value]), data[start + n.value..])
  }

  /** One value from the front of `data`, met at nesting depth `depth`. */
  function ParseValue(data: string, depth: nat): (r: Parsed<Value>)
    ensures r.Ok? ==> |r.rest| < |data|
    decreases |data|, 1
  {
    if depth > MAX_BENCODE_DEPTH then Err(TooDeep)
    else if data == "" then Err(UnexpectedEnd)
    else if data[0] == 'i' then ParseIntToken(data)
    else if data[0] == 'd' then
      var r := ParseEntries(data[1..], depth, map[]);
      if r.Err? then Err(r.error) else Ok(Dict(r.value), r.rest)
    else if data[0] == 'l' then
      var r := ParseItems(data[1..], depth, []);
      if r.Err? then Err(r.error) else Ok(List(r.value), r.rest)
    else ParseStringToken(data)
  }

  /** The elements of a list up to and including its closing 'e'; `out` holds those already read. */
  function ParseItems(rest: string, depth: nat, out: seq<Value>): (r: Parsed<seq<Value>>)
    ensures r.Ok? ==> |r.rest| < |rest|
    decreases |rest|, 2
  {
    if rest == "" then Err(UnterminatedList)
    else if rest[0] == 'e' then Ok(out, rest[1..])
    else
      var v := ParseValue(rest, depth + 1);
      if v.Err? then Err(v.error) else ParseItems(v.rest, depth, out + [v.value])
  }

  /** The entries of a dictionary up to and including its closing 'e'; a repeated key keeps its last value. */
  function ParseEntries(rest: string, depth: nat, out: map<string, Value>): (r: Parsed<map<string, Value>>)
    ensures r.Ok? ==> |r.rest| < |rest|
    decreases |rest|, 2
  {
    if rest == "" then Err(UnterminatedDict)
    else if rest[0] == 'e' then Ok(out, rest[1..])
    else
      var k := ParseValue(rest, depth + 1);
      if k.Err? then Err(k.error)
      else if !k.value.Str? then Err(KeyNotString)
      else
        var v := ParseValue(k.rest, depth + 1);
        if v.Err? then Err(v.error) else ParseEntries(v.rest, depth, out[k.value.text := v.value])
  }

  /** The reader as the source runs it: recursion on nesting, loops over list items and entries. */
  method ReadValue(data: string, depth: nat) returns (r: Parsed<Value>)
    ensures r == ParseValue(data, depth)
    decreases |data|
  {
    if depth > MAX_BENCODE_DEPTH {
      return Err(TooDeep);
    }
    if data == "" {
      return Err(UnexpectedEnd);
    }
    if data[0] == 'i' {
      return ParseIntToken(data);
    }
    if data[0] == 'd' {
      var out: map<string, Value> := map[];
      var rest := data[1..];
      while rest != "" && rest[0] != 'e'
        invariant |rest| < |data|
        invariant ParseEntries(data[1..], depth, map[]) == ParseEntries(rest, depth, out)
        decreases |rest|
      {
        var k := ReadValue(rest, depth + 1);
        if k.Err? {
          return Err(k.error);
        }
        if !k.value.Str? {
          return Err(KeyNotString);
        }
        var v := ReadValue(k.rest, depth + 1);
        if v.Err? {
          return Err(v.error);
        }
        out := out[k.value.text := v.value];
        rest := v.rest;
      }
      if rest == "" {
        return Err(UnterminatedDict);
      }
      return Ok(Dict(out), rest[1..]);
    }
    if data[0] == 'l' {
      var out: seq<Value> := [];
      var rest := data[1..];
      while rest != "" && rest[0] != 'e'
        invariant |rest| < |data|
        invariant ParseItems(data[1..], depth, []) == ParseItems(rest, depth, out)
        decreases |rest|
      {
        var v := ReadValue(rest, depth + 1);
        if v.Err? {
          return Err(v.error);
        }
        out := out + [v.value];
        rest := v.rest;
      }
      if rest == "" {
        return Err(UnterminatedList);
      }
      return Ok(List(out), rest[1..]);
    }
    return ParseStringToken(data);
  }

  // ----- What success consumes, and what trailing bytes change -----

  lemma {:induction false} SuccessConsumesPrefix(data: string, depth: nat)
    requires ParseValue(data, depth).Ok?
    ensures var rest := ParseValue(data, depth).rest;
            |rest| < |data| && data[|data| - |rest|..] == rest
    decreases |data|, 1
  {
    hide ParseIntToken, ParseStringToken, ParseItems, ParseEntries;
    if data[0] == 'd' {
      EntriesConsumePrefix(data[1..], depth, map[]);
    } else if data[0] == 'l' {
      ItemsConsumePrefix(data[1..], depth, []);
    } else if data[0] == 'i' {
      IntConsumesPrefix(data);
    } else {
      StringConsumesPrefix(data);
    }
  }

  lemma IntConsumesPrefix(data: string)
    requires data != "" && ParseIntToken(data).Ok?
    ensures var rest := ParseIntToken(data).rest;
            |rest| < |data| && data[|data| - |rest|..] == rest
  {
    hide ParseInt, IndexByte;
    assert ParseIntToken(data).rest == data[IndexByte(data, 'e') + 1..];
  }

  lemma StringConsumesPrefix(data: string)
    requires data != "" && ParseStringToken(data).Ok?
    ensures var rest := ParseStringToken(data).rest;
            |rest| < |data| && data[|data| - |rest|..] == rest
  {
    hide ParseInt, IndexByte;
    var colon := IndexByte(data, ':');
    assert ParseStringToken(data).rest == data[colon + 1 + ParseInt(data[..colon], 64).value..];
  }

  lemma {:induction false} ItemsConsumePrefix(rest: string, depth: nat, out: seq<Value>)
    requires ParseItems(rest, depth, out).Ok?
    ensures var left := ParseItems(rest, depth, out).rest;
            |left| < |rest| && rest[|rest| - |left|..] == left
    decreases |rest|, 2
  {
    if rest[0] == 'e' {
    } else {
      var v := ParseValue(rest, depth + 1);
      SuccessConsumesPrefix(rest, depth + 1);
      ItemsConsumePrefix(v.rest, depth, out + [v.value]);
    }
  }

  lemma {:induction false} EntriesConsumePrefix(rest: string, depth: nat, out: map<string, Value>)
    requires ParseEntries(rest, depth, out).Ok?
    ensures var left := ParseEntries(rest, depth, out).rest;
            |left| < |rest| && rest[|rest| - |left|..] == left
    decreases |rest|, 2
  {
    if rest[0] == 'e' {
    } else {
      var k := ParseValue(rest, depth + 1);
      SuccessConsumesPrefix(rest, depth + 1);
      var v := ParseValue(k.rest, depth + 1);
      SuccessConsumesPrefix(k.rest, depth + 1);
      EntriesConsumePrefix(v.rest, depth, out[k.value.text := v.value]);
    }
  }

  lemma {:induction false} IndexByteAppend(data: string, more: string, c: char)
    requires IndexByte(data, c) >= 0
    ensures IndexByte(data + more, c) == IndexByte(data, c)
  {
    if data[0] == c {
    } else {
      assert (data + more)[1..] == data[1..] + more;
      IndexByteAppend(data[1..], more, c);
    }
  }

  lemma SliceBeforeAppended(data: string, more: string, from: nat, to: nat)
    requires from <= to <= |data|
    ensures (data + more)[from..to] == data[from..to]
  {
  }

  /** Bytes appended to an accepted input are left unread and change nothing else. */
  lemma {:induction false} AppendedBytesStayUnread(data: string, depth: nat, more: string)
    requires ParseValue(data, depth).Ok?
    ensures ParseValue(data + more, depth) ==
            Ok(ParseValue(data, depth).value, ParseValue(data, depth).rest + more)
    decreases |data|, 1
  {
    assert (data + more)[1..] == data[1..] + more;
    if data[0] == 'i' {
      IndexByteAppend(data, more, 'e');
      var end := IndexByte(data, 'e');
      SliceBeforeAppended(data, more, 1, end);
      assert (data + more)[end + 1..] == data[end + 1..] + more;
    } else if data[0] == 'd' {
      EntriesAppended(data[1..], depth, map[], more);
    } else if data[0] == 'l' {
      ItemsAppended(data[1..], depth, [], more);
    } else {
      StringAppended(data, more);
    }
  }

  lemma StringAppended(data: string, more: string)
    requires |data| > 0 && ParseStringToken(data).Ok?
    ensures ParseStringToken(data + more) ==
            Ok(ParseStringToken(data).value, ParseStringToken(data).rest + more)
  {
    IndexByteAppend(data, more, ':');
    var colon := IndexByte(data, ':');
    assert (data + more)[..colon] == data[..colon];
    var start, n := colon + 1, ParseInt(data[..colon], 64).value;
    assert (data + more)[start..start + n] == data[start..start + n];
    assert (data + more)[start + n..] == data[start + n..] + more;
  }

  lemma {:induction false} ItemsAppended(rest: string, depth: nat, out: seq<Value>, more: string)
    requires ParseItems(rest, depth, out).Ok?
    ensures ParseItems(rest + more, depth, out) ==
            Ok(ParseItems(rest, depth, out).value, ParseItems(rest, depth, out).rest + more)
    decreases |rest|, 2
  {
    if rest[0] == 'e' {
      assert (rest + more)[1..] == rest[1..] + more;
    } else {
      var v := ParseValue(rest, depth + 1);
      AppendedBytesStayUnread(rest, depth + 1, more);
      ItemsAppended(v.rest, depth, out + [v.value], more);
    }
  }

  lemma {:induction false} EntriesAppended(rest: string, depth: nat, out: map<string, Value>, more: string)
    requires ParseEntries(rest, depth, out).Ok?
    ensures ParseEntries(rest + more, depth, out) ==
            Ok(ParseEntries(rest, depth, out).value, ParseEntries(rest, depth, out).rest + more)
    decreases |rest|, 2
  {
    if rest[0] == 'e' {
      assert (rest + more)[1..] == rest[1..] + more;
    } else {
      var k := ParseValue(rest, depth + 1);
      AppendedBytesStayUnread(rest, depth + 1, more);
      var v := ParseValue(k.rest, depth + 1);
      AppendedBytesStayUnread(k.rest, depth + 1, more);
      EntriesAppended(v.rest, depth, out[k.value.text := v.value], more);
    }
  }

  // ----- The encoder, and the reader as its inverse -----

  /** A value in the order an encoder writes it. BEP 3 asks for sorted keys; the reader accepts
      any order, so the written form keeps entries as a sequence. */
  datatype Written =
    | WInt(n: int)
    | WStr(text: string)
    | WList(items: seq<Written>)
    | WDict(entries: seq<(string, Written)>)

  predicate Encodable(w: Written) {
    match w
    case WInt(n) => MIN_INT64 <= n <= MAX_INT64
    case WStr(t) => |t| <= MAX_INT64
    case WList(items) => forall i :: 0 <= i < |items| ==> Encodable(items[i])
    case WDict(entries) => forall i :: 0 <= i < |entries| ==> |entries[i].0| <= MAX_INT64 && Encodable(entries[i].1)
  }

  function EncodeString(t: string): string {
    FormatUint(|t|, 10) + ":" + t
  }

  function Encode(w: Written): string {
    match w
    case WInt(n) => "i" + FormatInt(n) + "e"
    case WStr(t) => EncodeString(t)
    case WList(items) => "l" + EncodeItems(items) + "e"
    case WDict(entries) => "d" + EncodeEntries(entries) + "e"
  }

  function EncodeItems(items: seq<Written>): string {
    if items == [] then "" else Encode(items[0]) + EncodeItems(items[1..])
  }

  function EncodeEntries(entries: seq<(string, Written)>): string {
    if entries == [] then ""
    else
      var e := entries[0];
      assert e.1 < e;
      EncodeString(e.0) + Encode(e.1) + EncodeEntries(entries[1..])
  }

  /** The value a written form stands for; `acc` holds the entries already met. */
  function Meaning(w: Written): Value {
    match w
    case WInt(n) => Int(n)
    case WStr(t) => Str(t)
    case WList(items) => List(ItemsMeaning(items))
    case WDict(entries) => Dict(EntriesMeaning(entries, map[]))
  }

  function ItemsMeaning(items: seq<Written>): seq<Value> {
    if items == [] then [] else [Meaning(items[0])] + ItemsMeaning(items[1..])
  }

  function EntriesMeaning(entries: seq<(string, Written)>, acc: map<string, Value>): map<string, Value>
    decreases entries
  {
    if entries == [] then acc
    else
      var e := entries[0];
      assert e.1 < e;
      EntriesMeaning(entries[1..], acc[e.0 := Meaning(e.1)])
  }

  /** Nesting: a leaf and an empty container are at their own depth, a child (or a key) one deeper. */
  function Nesting(w: Written): nat {
    match w
    case WInt(_) => 0
    case WStr(_) => 0
    case WList(items) => ItemsNesting(items)
    case WDict(entries) => EntriesNesting(entries)
  }

  function ItemsNesting(items: seq<Written>): nat {
    if items == [] then 0 else Max(1 + Nesting(items[0]), ItemsNesting(items[1..]))
  }

  function EntriesNesting(entries: seq<(string, Written)>): nat {
    if entries == [] then 0
    else
      var e := entries[0];
      assert e.1 < e;
      Max(1 + Nesting(e.1), EntriesNesting(entries[1..]))
  }

  /** What the reader must give for the written form `w` met at depth `depth` before the bytes `rest`. */
  function Expected(w: Written, depth: nat, rest: string): Parsed<Value> {
    if depth + Nesting(w) <= MAX_BENCODE_DEPTH then Ok(Meaning(w), rest) else Err(TooDeep)
  }

  /** The reader inverts the encoder: every encodable value at most 200 levels deep is read back
      with the bytes after it left over, and any deeper one is refused as too deep. */
  lemma {:induction false} ReaderInvertsEncoder(w: Written, depth: nat, suffix: string)
    requires Encodable(w)
    ensures ParseValue(Encode(w) + suffix, depth) == Expected(w, depth, suffix)
    decreases w, 1
  {
    if depth <= MAX_BENCODE_DEPTH {
      match w
      case WInt(n) => IntRead(n, depth, suffix);
      case WStr(t) => StringRoundTrip(t, suffix);
      case WList(items) =>
        ItemsRoundTrip(items, depth, [], suffix);
        ListRead(items, depth, suffix);
      case WDict(entries) =>
        EntriesRoundTrip(entries, depth, map[], suffix);
        DictRead(entries, depth, suffix);
    }
  }

  lemma IntRead(n: int, depth: nat, suffix: string)
    requires MIN_INT64 <= n <= MAX_INT64 && depth <= MAX_BENCODE_DEPTH
    ensures ParseValue(Encode(WInt(n)) + suffix, depth) == Ok(Int(n), suffix)
  {
    IntRoundTrip(n, suffix);
  }

  lemma ListRead(items: seq<Written>, depth: nat, suffix: string)
    requires depth <= MAX_BENCODE_DEPTH
    requires ParseItems(EncodeItems(items) + "e" + suffix, depth, []) ==
             if depth + ItemsNesting(items) <= MAX_BENCODE_DEPTH then Ok([] + ItemsMeaning(items), suffix)
             else Err(TooDeep)
    ensures ParseValue(Encode(WList(items)) + suffix, depth) == Expected(WList(items), depth, suffix)
  {
    hide EncodeItems, ItemsMeaning, ItemsNesting, ParseItems;
    var data := Encode(WList(items)) + suffix;
    assert data[0] == 'l' && data[1..] == EncodeItems(items) + "e" + suffix;
    assert [] + ItemsMeaning(items) == ItemsMeaning(items);
  }

  lemma DictRead(entries: seq<(string, Written)>, depth: nat, suffix: string)
    requires depth <= MAX_BENCODE_DEPTH
    requires ParseEntries(EncodeEntries(entries) + "e" + suffix, depth, map[]) ==
             if depth + EntriesNesting(entries) <= MAX_BENCODE_DEPTH then Ok(EntriesMeaning(entries, map[]), suffix)
             else Err(TooDeep)
    ensures ParseValue(Encode(WDict(entries)) + suffix, depth) == Expected(WDict(entries), depth, suffix)
  {
    hide EncodeEntries, EntriesMeaning, EntriesNesting, ParseEntries;
    var data := Encode(WDict(entries)) + suffix;
    assert data[0] == 'd' && data[1..] == EncodeEntries(entries) + "e" + suffix;
  }

  lemma IntRoundTrip(n: int, suffix: string)
    requires MIN_INT64 <= n <= MAX_INT64
    ensures ParseIntToken("i" + FormatInt(n) + "e" + suffix) == Ok(Int(n), suffix)
  {
    var text := FormatInt(n);
    var data := "i" + text + "e" + suffix;
    Pow2Values();
    FormatIntRoundTrip(n, 64);
    FormatIntLacks(n, 'e');
    assert data == ("i" + text) + ("e" + suffix);
    FirstOccurrence("i" + text, 'e', suffix);
    assert data[1..1 + |text|] == text;
  }

  lemma {:induction false} FirstOccurrence(before: string, c: char, after: string)
    requires c !in before
    ensures IndexByte(before + ([c] + after), c) == |before|
  {
    var data := before + ([c] + after);
    if before == "" {
    } else {
      assert data[1..] == before[1..] + ([c] + after);
      FirstOccurrence(before[1..], c, after);
    }
  }

  lemma StringRoundTrip(t: string, suffix: string)
    requires |t| <= MAX_INT64
    ensures EncodeString(t) != "" && IsDecimal(EncodeString(t)[0])
    ensures ParseStringToken(EncodeString(t) + suffix) == Ok(Str(t), suffix)
  {
    var digits := FormatUint(|t|, 10);
    var data := EncodeString(t) + suffix;
    assert digits == FormatInt(|t|);
    assert digits[0] in digits && IsDecimal(digits[0]) by { FormatUintDigits(|t|, 10); }
    assert ParseInt(digits, 64) == Some(|t|) by {
      Pow2Values();
      FormatIntRoundTrip(|t|, 64);
    }
    assert data == digits + ([':'] + (t + suffix));
    FormatIntLacks(|t|, ':');
    FirstOccurrence(digits, ':', t + suffix);
    StringPieces(digits, t, suffix);
  }

  lemma StringPieces(digits: string, t: string, suffix: string)
    ensures var data := digits + ([':'] + (t + suffix));
            && data[..|digits|] == digits
            && data[|digits| + 1..|digits| + 1 + |t|] == t
            && data[|digits| + 1 + |t|..] == suffix
  {
  }

  /** Every encoded value starts with a byte that does not close a container. */
  lemma EncodedStart(w: Written)
    requires Encodable(w)
    ensures Encode(w) != "" && Encode(w)[0] != 'e'
  {
    if w.WStr? {
      StringRoundTrip(w.text, "");
    }
  }

  lemma {:induction false} ItemsRoundTrip(items: seq<Written>, depth: nat, out: seq<Value>, suffix: string)
    requires depth <= MAX_BENCODE_DEPTH && forall i :: 0 <= i < |items| ==> Encodable(items[i])
    ensures ParseItems(EncodeItems(items) + "e" + suffix, depth, out) ==
            if depth + ItemsNesting(items) <= MAX_BENCODE_DEPTH
            then Ok(out + ItemsMeaning(items), suffix) else Err(TooDeep)
    decreases items, 0
  {
    var data := EncodeItems(items) + "e" + suffix;
    if items == [] {
      assert data == "e" + suffix;
      assert data[1..] == suffix;
      assert out + [] == out;
    } else {
      var first, others := items[0], items[1..];
      var tail := EncodeItems(others) + "e" + suffix;
      assert data == Encode(first) + tail;
      EncodedStart(first);
      ReaderInvertsEncoder(first, depth + 1, tail);
      ItemsRoundTrip(others, depth, out + [Meaning(first)], suffix);
      assert out + [Meaning(first)] + ItemsMeaning(others) == out + ItemsMeaning(items);
    }
  }

  lemma {:induction false} EntriesRoundTrip(entries: seq<(string, Written)>, depth: nat, out: map<string, Value>,
                                           suffix: string)
    requires depth <= MAX_BENCODE_DEPTH && Encodable(WDict(entries))
    ensures ParseEntries(EncodeEntries(entries) + "e" + suffix, depth, out) ==
            if depth + EntriesNesting(entries) <= MAX_BENCODE_DEPTH
            then Ok(EntriesMeaning(entries, out), suffix) else Err(TooDeep)
    decreases entries, 0
  {
    hide Encode, EncodeString, Meaning, ParseValue, Nesting;
    var data := EncodeEntries(entries) + "e" + suffix;
    if entries == [] {
      assert data == "e" + suffix;
      assert data[1..] == suffix;
    } else {
      var first, others := entries[0], entries[1..];
      var (key, w) := first;
      assert w < first;
      var tail := EncodeEntries(others) + "e" + suffix;
      assert data == EncodeString(key) + (Encode(w) + tail);
      ReaderInvertsEncoder(w, depth + 1, tail);
      EntryRead(key, w, depth, out, tail);
      EntriesRoundTrip(others, depth, out[key := Meaning(w)], suffix);
    }
  }

  lemma EntryRead(key: string, w: Written, depth: nat, out: map<string, Value>, tail: string)
    requires depth <= MAX_BENCODE_DEPTH && |key| <= MAX_INT64
    requires ParseValue(Encode(w) + tail, depth + 1) == Expected(w, depth + 1, tail)
    ensures ParseEntries(EncodeString(key) + (Encode(w) + tail), depth, out) ==
            if depth + 1 + Nesting(w) <= MAX_BENCODE_DEPTH
            then ParseEntries(tail, depth, out[key := Meaning(w)]) else Err(TooDeep)
  {
    KeyRoundTrip(key, depth + 1, Encode(w) + tail);
  }

  lemma KeyRoundTrip(key: string, depth: nat, suffix: string)
    requires |key| <= MAX_INT64
    ensures EncodeString(key) + suffix != "" && (EncodeString(key) + suffix)[0] != 'e'
    ensures ParseValue(EncodeString(key) + suffix, depth) ==
            if depth <= MAX_BENCODE_DEPTH then Ok(Str(key), suffix) else Err(TooDeep)
  {
    StringRoundTrip(key, suffix);
  }

  /** Some written form of a value; the order of a dictionary's keys is left open. */
  ghost function Write(v: Value): Written
    decreases v, 1
  {
    match v
    case Int(n) => WInt(n)
    case Str(t) => WStr(t)
    case List(items) => WList(seq(|items|, i requires 0 <= i < |items| => Write(items[i])))
    case Dict(entries) => WDict(WriteEntries(v, entries.Keys))
  }

  ghost function WriteEntries(v: Value, keys: set<string>): seq<(string, Written)>
    requires v.Dict? && keys <= v.entries.Keys
    decreases v, 0, keys
  {
    if keys == {} then []
    else
      var k :| k in keys;
      [(k, Write(v.entries[k]))] + WriteEntries(v, keys - {k})
  }

  /** Every value has a written form, so the encoder reaches every value. */
  lemma {:induction false} WriteKeepsMeaning(v: Value)
    ensures Meaning(Write(v)) == v
    decreases v, 1
  {
    match v
    case Int(_) =>
    case Str(_) =>
    case List(items) =>
      forall i | 0 <= i < |items| ensures Meaning(Write(items[i])) == items[i] {
        WriteKeepsMeaning(items[i]);
      }
      ItemsMeaningAt(Write(v).items);
      assert ItemsMeaning(Write(v).items) == items;
    case Dict(entries) =>
      WriteEntriesMeaning(v, entries.Keys, map[]);
      assert (map k | k in entries.Keys :: entries[k]) == entries;
  }

  lemma {:induction false} ItemsMeaningAt(items: seq<Written>)
    ensures |ItemsMeaning(items)| == |items|
    ensures forall i :: 0 <= i < |items| ==> ItemsMeaning(items)[i] == Meaning(items[i])
  {
    if items == [] {
    } else {
      ItemsMeaningAt(items[1..]);
    }
  }

  lemma {:induction false} WriteEntriesMeaning(v: Value, keys: set<string>, acc: map<string, Value>)
    requires v.Dict? && keys <= v.entries.Keys
    ensures EntriesMeaning(WriteEntries(v, keys), acc) == acc + (map k | k in keys :: v.entries[k])
    decreases v, 0, keys
  {
    var es := WriteEntries(v, keys);
    if keys == {} {
    } else {
      var k := es[0].0;
      assert es[1..] == WriteEntries(v, keys - {k});
      WriteKeepsMeaning(v.entries[k]);
      WriteEntriesMeaning(v, keys - {k}, acc[k := v.entries[k]]);
      assert acc[k := v.entries[k]] + (map j | j in keys - {k} :: v.entries[j])
          == acc + (map j | j in keys :: v.entries[j]);
    }
  }

  /** From values to bytes and back, with whatever follows the bytes left unread. */
  lemma ValueRoundTrip(v: Value, suffix: string)
    requires Encodable(Write(v)) && Nesting(Write(v)) <= MAX_BENCODE_DEPTH
    ensures ParseValue(Encode(Write(v)) + suffix, 0) == Ok(v, suffix)
  {
    ReaderInvertsEncoder(Write(v), 0, suffix);
    WriteKeepsMeaning(v);
  }

  /** A list around a list and so on, `n` times around an empty one. */
  function Nested(n: nat): Written {
    if n == 0 then WList([]) else WList([Nested(n - 1)])
  }

  lemma {:induction false} NestedIs(n: nat)
    ensures Encodable(Nested(n)) && Nesting(Nested(n)) == n
    decreases n
  {
    if n == 0 {
    } else {
      NestedIs(n - 1);
      var items := [Nested(n - 1)];
      assert items[1..] == [] && ItemsNesting(items) == Max(1 + Nesting(items[0]), ItemsNesting(items[1..]));
      assert ItemsNesting([]) == 0;
    }
  }

  /** Two hundred levels around an empty list are read, and not one more. */
  lemma DepthIsLimited(n: nat)
    ensures ParseValue(Encode(Nested(n)), 0).Ok? <==> n <= 200
    ensures n > 200 ==> ParseValue(Encode(Nested(n)), 0) == Err(TooDeep)
  {
    NestedIs(n);
    ReaderInvertsEncoder(Nested(n), 0, "");
    assert Encode(Nested(n)) + "" == Encode(Nested(n));
  }

  /** Reading a value cut short fails, wherever the cut. */
  lemma TruncatedIsRefused(w: Written, n: nat)
    requires Encodable(w) && n < |Encode(w)|
    ensures ParseValue(Encode(w)[..n], 0).Err?
  {
    var text := Encode(w);
    if ParseValue(text[..n], 0).Ok? {
      assert text[..n] + text[n..] == text && text + "" == text;
      AppendedBytesStayUnread(text[..n], 0, text[n..]);
      ReaderInvertsEncoder(w, 0, "");
    }
  }

  /** The forms of BEP 3: a number, a text with its length, a list and a dictionary. */
  lemma KnownForms()
    ensures Encode(WInt(-42)) == "i-42e" && Encode(WStr("spam")) == "4:spam"
    ensures Encode(WList([WStr("spam"), WInt(7)])) == "l4:spami7ee"
    ensures Encode(WDict([("cow", WStr("moo")), ("n", WInt(0))])) == "d3:cow3:moo1:ni0ee"
    ensures Encode(WList([])) == "le" && Encode(WDict([])) == "de"
  {
    hide FormatUint, FormatInt, EncodeString, EncodeItems, EncodeEntries;
    KnownNumbers();
    KnownTexts();
    KnownItems();
    KnownEntries();
  }

  lemma KnownTexts()
    ensures EncodeString("spam") == "4:spam" && EncodeString("cow") == "3:cow"
    ensures EncodeString("moo") == "3:moo" && EncodeString("n") == "1:n"
  {
    hide FormatUint;
    KnownNumbers();
  }

  lemma KnownItems()
    ensures EncodeItems([]) == "" && EncodeItems([WStr("spam"), WInt(7)]) == "4:spami7e"
  {
    hide FormatUint, FormatInt, EncodeString;
    KnownNumbers();
    KnownTexts();
    assert [WStr("spam"), WInt(7)][1..] == [WInt(7)] && [WInt(7)][1..] == [];
    assert EncodeItems([WInt(7)]) == "i7e";
  }

  lemma KnownEntries()
    ensures EncodeEntries([]) == "" && EncodeEntries([("cow", WStr("moo")), ("n", WInt(0))]) == "3:cow3:moo1:ni0e"
  {
    hide FormatUint, FormatInt, EncodeString;
    KnownNumbers();
    KnownTexts();
    assert [("cow", WStr("moo")), ("n", WInt(0))][1..] == [("n", WInt(0))] && [("n", WInt(0))][1..] == [];
    assert EncodeEntries([("n", WInt(0))]) == "1:ni0e";
  }

  lemma KnownNumbers()
    ensures FormatInt(-42) == "-42" && FormatInt(7) == "7" && FormatInt(0) == "0"
    ensures FormatUint(4, 10) == "4" && FormatUint(3, 10) == "3" && FormatUint(1, 10) == "1"
  {
    assert FormatUint(42, 10) == "42";
  }

  /** A repeated key keeps its last value. */
  lemma {:induction false} LastEntryWins(entries: seq<(string, Written)>, k: string, w: Written,
                                         acc: map<string, Value>)
    ensures EntriesMeaning(entries + [(k, w)], acc) == EntriesMeaning(entries, acc)[k := Meaning(w)]
    decreases |entries|
  {
    if entries == [] {
      assert entries + [(k, w)] == [(k, w)];
    } else {
      var e := entries[0];
      assert (entries + [(k, w)])[0] == e && (entries + [(k, w)])[1..] == entries[1..] + [(k, w)];
      LastEntryWins(entries[1..], k, w, acc[e.0 := Meaning(e.1)]);
    }
  }

  /** The number a reply gives last for a key is what its field becomes; anything else gives zero. */
  lemma FieldsAreFound(entries: seq<(string, Written)>, k: string, w: Written, n: int)
    requires Encodable(WDict(entries + [(k, w)])) && Nesting(WDict(entries + [(k, w)])) <= MAX_BENCODE_DEPTH
    ensures var v := ParseValue(Encode(WDict(entries + [(k, w)])), 0);
            && v.Ok? && v.value.Dict? && v.rest == ""
            && (w == WInt(n) ==> IntField(v.value.entries, k) == n)
            && (!w.WInt? ==> IntField(v.value.entries, k) == 0)
    ensures IntField(map[], k) == 0
  {
    var all := WDict(entries + [(k, w)]);
    ReaderInvertsEncoder(all, 0, "");
    assert Encode(all) + "" == Encode(all);
    LastEntryWins(entries, k, w, map[]);
  }

  // ----- Tracker responses -----

  datatype Response = Response(interval: int, minInterval: int, seeders: int, leechers: int, failure: string)

  function IntField(dict: map<string, Value>, key: string): int {
    if key in dict && dict[key].Int? then dict[key].n else 0
  }

  /** `blank` tells whether bytes.TrimSpace leaves nothing of its argument. */
  method ParseResponse(data: string, blank: string -> bool) returns (accepted: bool, r: Response)
    ensures accepted <==>
            var v := ParseValue(data, 0); v.Ok? && blank(v.rest) && v.value.Dict?
    ensures accepted ==>
            var dict := ParseValue(data, 0).value.entries;
            && r.interval == IntField(dict, "interval")
            && r.minInterval == IntField(dict, "min interval")
            && r.leechers == IntField(dict, "incomplete")
            && r.seeders == OtherSeeders(IntField(dict, "complete"))
            && r.failure == if "failure reason" in dict && dict["failure reason"].Str?
                            then dict["failure reason"].text else ""
  {
    r := Response(0, 0, 0, 0, "");
    var v := ReadValue(data, 0);
    if v.Err? || !blank(v.rest) || !v.value.Dict? {
      return false, r;
    }
    var dict := v.value.entries;
    r := r.(interval := IntField(dict, "interval"), minInterval := IntField(dict, "min interval"));
    r := r.(seeders := WrapInt64(IntField(dict, "complete") - 1));
    if r.seeders < 0 {
      r := r.(seeders := 0);
    }
    r := r.(leechers := IntField(dict, "incomplete"));
    if "failure reason" in dict && dict["failure reason"].Str? {
      r := r.(failure := dict["failure reason"].text);
    }
    accepted := true;
  }

  /** The seeders other than this client: one less than `complete`, wrapping as int64 does, and not below zero. */
  function OtherSeeders(complete: int): int {
    AtLeastZero(WrapInt64(complete - 1))
  }

  /** The count is the intended one except for the single value whose decrement wraps. */
  lemma OtherSeedersExact(complete: int)
    requires MIN_INT64 <= complete <= MAX_INT64
    ensures OtherSeeders(complete) == (if complete <= 1 then 0 else complete - 1) <==> complete != MIN_INT64
  {
    if complete == MIN_INT64 {
      assert OtherSeeders(complete) == MAX_INT64;
    }
  }
}
