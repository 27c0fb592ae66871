/** The UDP announce request: parsing the rendered query, packing it into 98 bytes, and reading
    those bytes back as BEP 15, section "UDP tracker protocol", lays them out (IPv4 announce request). */
module Udp {
  import opened Numerals
  import opened UrlEncode

  // ----- parseUDPQuery -----

  datatype QueryResult = Parsed(values: map<string, string>) | BadValue(key: string)

  function IndexOf(s: string, c: char): (i: nat)
    ensures i <= |s| && c !in s[..i]
    ensures i < |s| ==> s[i] == c
    ensures c in s ==> i < |s|
  {
    if s == "" then 0
    else if s[0] == c then 0
    else
      var j := IndexOf(s[1..], c);
      assert s[..j + 1] == [s[0]] + s[1..][..j];
      1 + j
  }

  /** strings.Cut: the text before the first `c` and the text after it ("" when there is none). */
  function Cut(s: string, c: char): (r: (string, string))
    ensures |r.1| <= |s| && (s != "" ==> |r.1| < |s|)
  {
    var i := IndexOf(s, c);
    (s[..i], if i < |s| then s[i + 1..] else "")
  }

  lemma {:induction false} IndexOfFirst(before: string, c: char, after: string)
    requires c !in before
    ensures IndexOf(before + [c] + after, c) == |before|
  {
    var s := before + [c] + after;
    if before == "" {
    } else {
      assert s[1..] == before[1..] + [c] + after;
      IndexOfFirst(before[1..], c, after);
    }
  }

  lemma CutAt(before: string, c: char, after: string)
    requires c !in before
    ensures Cut(before + [c] + after, c) == (before, after)
  {
    var s := before + [c] + after;
    IndexOfFirst(before, c, after);
    assert s[..|before|] == before;
    assert s[|before| + 1..] == after;
  }

  lemma CutNothing(s: string, c: char)
    requires c !in s
    ensures Cut(s, c) == (s, "")
  {
    assert IndexOf(s, c) == |s|;
    assert s[..|s|] == s;
  }

  function Unescaped(s: string): string {
    var u := PathUnescape(s);
    if u.None? then s else u.value
  }

  function ParseQuery(raw: string, values: map<string, string>): QueryResult
    decreases |raw|
  {
    if raw == "" then Parsed(values)
    else
      var (part, rest) := Cut(raw, '&');
      if part == "" then ParseQuery(rest, values)
      else
        var (key, value) := Cut(part, '=');
        var v := PathUnescape(value);
        if v.None? then BadValue(Unescaped(key))
        else ParseQuery(rest, values[Unescaped(key) := v.value])
  }

  method ParseUDPQuery(rawQuery: string) returns (r: QueryResult)
    ensures r == ParseQuery(rawQuery, map[])
  {
    var values: map<string, string> := map[];
    var raw := rawQuery;
    while raw != ""
      invariant ParseQuery(rawQuery, map[]) == ParseQuery(raw, values)
      decreases |raw|
    {
      var cut := Cut(raw, '&');
      raw := cut.1;
      if cut.0 == "" {
        continue;
      }
      var pair := Cut(cut.0, '=');
      var v := PathUnescape(pair.1);
      if v.None? {
        return BadValue(Unescaped(pair.0));
      }
      values := values[Unescaped(pair.0) := v.value];
    }
    return Parsed(values);
  }

  // ----- Queries as lists of parameters -----

  /** A parameter as it stands in the query: its key and its text after encoding. */
  datatype Param = Param(key: string, raw: string)

  predicate PlainKey(key: string) {
    '&' !in key && '=' !in key && '%' !in key
  }

  predicate WellFormed(p: Param) {
    PlainKey(p.key) && '&' !in p.raw && PathUnescape(p.raw).Some?
  }

  function Query(params: seq<Param>): string {
    if params == [] then ""
    else if |params| == 1 then params[0].key + "=" + params[0].raw
    else params[0].key + "=" + params[0].raw + "&" + Query(params[1..])
  }

  /** The decoded parameters; a repeated key keeps its last value. */
  function Decoded(params: seq<Param>, values: map<string, string>): map<string, string> {
    if params == [] then values
    else Decoded(params[1..], values[params[0].key := Unescaped(params[0].raw)])
  }

  /** Parsing a rendered query gives back every parameter, decoded. */
  lemma {:induction false} QueryRoundTrip(params: seq<Param>, values: map<string, string>)
    requires forall i :: 0 <= i < |params| ==> WellFormed(params[i])
    ensures ParseQuery(Query(params), values) == Parsed(Decoded(params, values))
  {
    if params != [] {
      var p := params[0];
      var part := p.key + "=" + p.raw;
      CutAt(p.key, '=', p.raw);
      assert '&' !in part;
      PlainTextUnescapes(p.key);
      QueryRoundTrip(params[1..], values[p.key := Unescaped(p.raw)]);
      if |params| == 1 {
        CutNothing(part, '&');
        assert params[1..] == [];
      } else {
        CutAt(part, '&', Query(params[1..]));
        assert Query(params) == part + ['&'] + Query(params[1..]);
      }
    }
  }

  /** Empty parts are skipped, and a part without '=' is a key with an empty text. */
  lemma LooseParts(key: string, rest: string, values: map<string, string>)
    requires PlainKey(key) && key != ""
    ensures ParseQuery("&" + rest, values) == ParseQuery(rest, values)
    ensures ParseQuery(key + "&" + rest, values) == ParseQuery(rest, values[key := ""])
  {
    CutAt("", '&', rest);
    assert "" + ['&'] + rest == "&" + rest;
    CutAt(key, '&', rest);
    CutNothing(key, '=');
    PlainTextUnescapes(key);
  }

  /** A key that cannot be decoded is taken as it stands. */
  lemma BadKeyStays(key: string, raw: string, rest: string, values: map<string, string>)
    requires '&' !in key && '=' !in key && key != "" && PathUnescape(key).None?
    requires '&' !in raw && PathUnescape(raw).Some?
    ensures ParseQuery(key + "=" + raw + "&" + rest, values) == ParseQuery(rest, values[key := PathUnescape(raw).value])
  {
    var part := key + "=" + raw;
    CutAt(part, '&', rest);
    CutAt(key, '=', raw);
    assert part + ['&'] + rest == key + "=" + raw + "&" + rest;
  }

  /** The first text that cannot be decoded is reported with its key. */
  lemma {:induction false} BadTextIsReported(params: seq<Param>, bad: Param, rest: seq<Param>,
                                             values: map<string, string>)
    requires forall i :: 0 <= i < |params| ==> WellFormed(params[i])
    requires PlainKey(bad.key) && '&' !in bad.raw && PathUnescape(bad.raw).None?
    ensures ParseQuery(Query(params + [bad] + rest), values) == BadValue(bad.key)
    decreases |params|
  {
    var all := params + [bad] + rest;
    var p, more := all[0], all[1..];
    var part := p.key + "=" + p.raw;
    CutAt(p.key, '=', p.raw);
    PlainTextUnescapes(p.key);
    assert '&' !in part;
    if |all| == 1 {
      CutNothing(part, '&');
    } else {
      CutAt(part, '&', Query(more));
      assert Query(all) == part + ['&'] + Query(more);
    }
    if params != [] {
      assert more == params[1..] + [bad] + rest;
      BadTextIsReported(params[1..], bad, rest, values[p.key := Unescaped(p.raw)]);
    }
  }

  /** When every parameter with the key `key` carries the text `text`, the key decodes to that text. */
  lemma {:induction false} DecodedLookup(params: seq<Param>, values: map<string, string>, key: string, text: string)
    requires forall i :: 0 <= i < |params| && params[i].key == key ==> Unescaped(params[i].raw) == text
    requires key in values ==> values[key] == text
    ensures (key in values || exists i :: 0 <= i < |params| && params[i].key == key)
            <==> key in Decoded(params, values)
    ensures key in Decoded(params, values) ==> Decoded(params, values)[key] == text
  {
    if params == [] {
    } else {
      DecodedLookup(params[1..], values[params[0].key := Unescaped(params[0].raw)], key, text);
      assert forall i :: 0 <= i < |params[1..]| ==> params[1..][i] == params[i + 1];
      assert forall i :: 1 <= i < |params| ==> params[i] == params[1..][i - 1];
    }
  }

  // ----- Big-endian numbers -----

  function BE(n: nat, width: nat): (s: string)
    ensures |s| == width && IsBytes(s)
  {
    if width == 0 then "" else BE(n / 256, width - 1) + [(n % 256) as char]
  }

  function UnBE(s: string): nat
    requires IsBytes(s)
  {
    if s == "" then 0 else UnBE(s[..|s| - 1]) * 256 + s[|s| - 1] as int
  }

  lemma {:induction false} BERoundTrip(n: nat, width: nat)
    requires n < Pow2(8 * width)
    ensures UnBE(BE(n, width)) == n
  {
    if width == 0 {
    } else {
      Pow2Sum(8, 8 * (width - 1));
      assert Pow2(8) == 256 by { Pow2Sum(4, 4); }
      BERoundTrip(n / 256, width - 1);
      assert BE(n, width)[..width - 1] == BE(n / 256, width - 1);
    }
  }

  /** The bit pattern of a 32-bit two's complement number, and the number a pattern stands for. */
  function Uint32(n: int): nat
    requires -0x8000_0000 <= n < 0x8000_0000
  {
    if n < 0 then n + 0x1_0000_0000 else n
  }

  function Int32(u: nat): int {
    if u >= 0x8000_0000 then u - 0x1_0000_0000 else u
  }

  // ----- buildUDPAnnounceRequest -----

  datatype Fields = Fields(
    infoHash: string, peerId: string, downloaded: nat, left: nat, uploaded: nat,
    event: nat, ip: Option<string>, key: nat, numwant: int, port: nat)

  datatype BuildError =
    | InfoHashLength | PeerIdLength | BadCounter(name: string) | BadPort | BadNumwant | BadKey

  function Lookup(values: map<string, string>, key: string): string {
    if key in values then values[key] else ""
  }

  function QueryInt64(values: map<string, string>, key: string): (r: Option<nat>)
    ensures r.Some? ==> r.value < Pow2(63)
  {
    var n := ParseInt(Lookup(values, key), 64);
    if n.None? || n.value < 0 then None else Some(n.value)
  }

  function UdpEvent(event: string): nat {
    if event == "completed" then 1
    else if event == "started" then 2
    else if event == "stopped" then 3
    else 0
  }

  /** The events in the order BEP 15 numbers them. */
  const EVENT_NAMES: seq<string> := ["", "completed", "started", "stopped"]

  /** The code of an event is its number, and every other text has none. */
  lemma EventIsNumbered(event: string)
    ensures UdpEvent(event) < 4
    ensures event in EVENT_NAMES ==> EVENT_NAMES[UdpEvent(event)] == event
    ensures event !in EVENT_NAMES ==> UdpEvent(event) == 0
  {
    assert EVENT_NAMES[0] == "" && EVENT_NAMES[1] == "completed";
    assert EVENT_NAMES[2] == "started" && EVENT_NAMES[3] == "stopped";
  }

  datatype Checked = Good(fields: Fields) | Refused(error: BuildError)

  /** `parseIPv4` stands for net.ParseIP followed by To4. */
  function CheckValues(values: map<string, string>, parseIPv4: string -> Option<string>): Checked {
    var infoHash, peerId := Lookup(values, "info_hash"), Lookup(values, "peer_id");
    if |infoHash| != 20 then Refused(InfoHashLength)
    else if |peerId| != 20 then Refused(PeerIdLength)
    else
      var downloaded := QueryInt64(values, "downloaded");
      var left := QueryInt64(values, "left");
      var uploaded := QueryInt64(values, "uploaded");
      if downloaded.None? then Refused(BadCounter("downloaded"))
      else if left.None? then Refused(BadCounter("left"))
      else if uploaded.None? then Refused(BadCounter("uploaded"))
      else
        var port := ParseUint(Lookup(values, "port"), 10, 16);
        var numwant := NumwantValue(Lookup(values, "numwant"));
        var key := KeyValue(Lookup(values, "key"));
        if port.None? || port.value == 0 then Refused(BadPort)
        else if numwant.None? then Refused(BadNumwant)
        else if key.None? then Refused(BadKey)
        else Good(Fields(infoHash, peerId, downloaded.value, left.value, uploaded.value,
                         UdpEvent(Lookup(values, "event")), parseIPv4(Lookup(values, "ip")),
                         key.value, numwant.value, port.value))
  }

  function NumwantValue(text: string): (n: Option<int>)
    ensures n.Some? ==> -0x8000_0000 <= n.value < 0x8000_0000
  {
    assert Pow2(31) == 0x8000_0000 by { Pow2Values(); }
    if text == "" then Some(-1) else ParseInt(text, 32)
  }

  function KeyValue(text: string): Option<nat> {
    if text == "" then Some(0) else ParseUint(text, 16, 32)
  }

  predicate CounterText(text: string) {
    ParseInt(text, 64).Some? && ParseInt(text, 64).value >= 0
  }

  predicate PortText(text: string) {
    ParseUint(text, 10, 16).Some? && 1 <= ParseUint(text, 10, 16).value < 65536
  }

  /** Which values are accepted, and what becomes of the texts that may be missing. */
  lemma AcceptedExactly(values: map<string, string>, parseIPv4: string -> Option<string>)
    ensures var c := CheckValues(values, parseIPv4);
            && (c.Good? <==>
                  && |Lookup(values, "info_hash")| == 20 && |Lookup(values, "peer_id")| == 20
                  && CounterText(Lookup(values, "downloaded")) && CounterText(Lookup(values, "left"))
                  && CounterText(Lookup(values, "uploaded")) && PortText(Lookup(values, "port"))
                  && (Lookup(values, "numwant") == "" || ParseInt(Lookup(values, "numwant"), 32).Some?)
                  && (Lookup(values, "key") == "" || ParseUint(Lookup(values, "key"), 16, 32).Some?))
            && (c.Good? && Lookup(values, "numwant") == "" ==> c.fields.numwant == -1)
            && (c.Good? && Lookup(values, "key") == "" ==> c.fields.key == 0)
  {
    hide ParseInt, ParseUint, Lookup, UdpEvent;
    PortFits(Lookup(values, "port"));
  }

  lemma PortFits(text: string)
    ensures ParseUint(text, 10, 16).Some? ==> ParseUint(text, 10, 16).value < 65536
  {
    Pow2Values();
  }

  predicate Packable(f: Fields) {
    && |f.infoHash| == 20 && IsBytes(f.infoHash) && |f.peerId| == 20 && IsBytes(f.peerId)
    && (f.ip.Some? ==> |f.ip.value| == 4 && IsBytes(f.ip.value))
    && -0x8000_0000 <= f.numwant < 0x8000_0000
  }

  function Identity(connectionId: nat, tx: nat, f: Fields): (p: string)
    requires Packable(f)
    ensures |p| == 56 && IsBytes(p)
  {
    BE(connectionId, 8) + BE(1, 4) + BE(tx, 4) + f.infoHash + f.peerId
  }

  function Counters(f: Fields): (p: string)
    ensures |p| == 24 && IsBytes(p)
  {
    BE(f.downloaded, 8) + BE(f.left, 8) + BE(f.uploaded, 8)
  }

  function Trailer(f: Fields): (p: string)
    requires Packable(f)
    ensures |p| == 18 && IsBytes(p)
  {
    BE(f.event, 4) + (if f.ip.Some? then f.ip.value else BE(0, 4))
    + BE(f.key, 4) + BE(Uint32(f.numwant), 4) + BE(f.port, 2)
  }

  /** The bytes of the request in order. */
  function Packet(connectionId: nat, tx: nat, f: Fields): (p: string)
    requires Packable(f)
    ensures |p| == 98 && IsBytes(p)
  {
    Identity(connectionId, tx, f) + Counters(f) + Trailer(f)
  }

  /** copy(request[at:], bytes) */
  method Put(request: array<char>, at: nat, bytes: string)
    requires at + |bytes| <= request.Length
    modifies request
    ensures request[..at + |bytes|] == old(request[..at]) + bytes
    ensures forall i :: at + |bytes| <= i < request.Length ==> request[i] == old(request[i])
  {
    for i := 0 to |bytes|
      invariant forall j :: 0 <= j < at ==> request[j] == old(request[j])
      invariant forall j :: at <= j < at + i ==> request[j] == bytes[j - at]
      invariant forall j :: at + i <= j < request.Length ==> request[j] == old(request[j])
    {
      request[at + i] := bytes[i];
    }
    assert request[..at] == old(request[..at]);
  }

  method PutIdentity(request: array<char>, connectionId: nat, tx: nat, f: Fields)
    requires request.Length == 98 && Packable(f)
    modifies request
    ensures request[..56] == Identity(connectionId, tx, f)
    ensures forall i :: 56 <= i < 98 ==> request[i] == old(request[i])
  {
    Put(request, 0, BE(connectionId, 8));
    Put(request, 8, BE(1, 4));
    Put(request, 12, BE(tx, 4));
    Put(request, 16, f.infoHash);
    Put(request, 36, f.peerId);
  }

  method PutCounters(request: array<char>, f: Fields)
    requires request.Length == 98
    modifies request
    ensures request[..80] == old(request[..56]) + Counters(f)
    ensures forall i :: 80 <= i < 98 ==> request[i] == old(request[i])
  {
    Put(request, 56, BE(f.downloaded, 8));
    Put(request, 64, BE(f.left, 8));
    Put(request, 72, BE(f.uploaded, 8));
  }

  method PutTrailer(request: array<char>, f: Fields)
    requires request.Length == 98 && Packable(f)
    requires forall i :: 80 <= i < 98 ==> request[i] == 0 as char
    modifies request
    ensures request[..] == old(request[..80]) + Trailer(f)
  {
    hide BE, IsBytes;
    PutEventAndIp(request, f);
    Put(request, 88, BE(f.key, 4));
    Put(request, 92, BE(Uint32(f.numwant), 4));
    Put(request, 96, BE(f.port, 2));
    assert request[..] == request[..98];
  }

  method PutEventAndIp(request: array<char>, f: Fields)
    requires request.Length == 98 && Packable(f)
    requires forall i :: 80 <= i < 98 ==> request[i] == 0 as char
    modifies request
    ensures request[..88] == old(request[..80]) + BE(f.event, 4) + (if f.ip.Some? then f.ip.value else BE(0, 4))
  {
    hide BE, IsBytes;
    Put(request, 80, BE(f.event, 4));
    if f.ip.Some? {
      Put(request, 84, f.ip.value);
    } else {
      ZeroBytes();
      assert request[..88] == request[..84] + request[84..88];
      assert request[84..88] == BE(0, 4);
    }
  }

  lemma ZeroBytes()
    ensures BE(0, 4) == seq(4, i => 0 as char)
  {
    assert BE(0, 1) == BE(0, 0) + [0 as char];
    assert BE(0, 2) == BE(0, 1) + [0 as char];
    assert BE(0, 3) == BE(0, 2) + [0 as char];
  }

  lemma CheckedIsPackable(values: map<string, string>, parseIPv4: string -> Option<string>)
    requires forall k :: k in values ==> IsBytes(values[k])
    requires forall t :: parseIPv4(t).Some? ==> |parseIPv4(t).value| == 4 && IsBytes(parseIPv4(t).value)
    requires CheckValues(values, parseIPv4).Good?
    ensures Packable(CheckValues(values, parseIPv4).fields)
  {
  }

  datatype Built = Request(bytes: string) | Failed(error: BuildError)

  /** `tx` stands for the random transaction id. Go strings hold bytes, and To4 gives four of them. */
  method BuildUDPAnnounceRequest(connectionId: nat, values: map<string, string>, tx: nat,
                                 parseIPv4: string -> Option<string>)
    returns (r: Built)
    requires forall k :: k in values ==> IsBytes(values[k])
    requires forall t :: parseIPv4(t).Some? ==> |parseIPv4(t).value| == 4 && IsBytes(parseIPv4(t).value)
    ensures match CheckValues(values, parseIPv4)
            case Refused(error) => r == Failed(error)
            case Good(f) => Packable(f) && r == Request(Packet(connectionId, tx, f))
  {
    var checked := CheckValues(values, parseIPv4);
    if checked.Refused? {
      return Failed(checked.error);
    }
    var f := checked.fields;
    CheckedIsPackable(values, parseIPv4);
    var request := new char[98](_ => 0 as char);
    PutIdentity(request, connectionId, tx, f);
    PutCounters(request, f);
    PutTrailer(request, f);
    return Request(request[..]);
  }

  // ----- Reading the request back -----

  datatype Announce = Announce(
    connectionId: nat, action: nat, tx: nat, infoHash: string, peerId: string,
    downloaded: nat, left: nat, uploaded: nat, event: nat, ip: string, key: nat, numwant: int, port: nat)

  /** The offsets BEP 15 gives for an IPv4 announce request. */
  function DecodeAnnounce(p: string): Announce
    requires |p| == 98 && IsBytes(p)
  {
    Announce(
      UnBE(p[0..8]), UnBE(p[8..12]), UnBE(p[12..16]), p[16..36], p[36..56],
      UnBE(p[56..64]), UnBE(p[64..72]), UnBE(p[72..80]), UnBE(p[80..84]), p[84..88],
      UnBE(p[88..92]), Int32(UnBE(p[92..96])), UnBE(p[96..98]))
  }

  predicate FitsPacket(f: Fields) {
    && Packable(f)
    && f.downloaded < Pow2(64) && f.left < Pow2(64) && f.uploaded < Pow2(64)
    && f.event < Pow2(32) && f.key < Pow2(32) && f.port < Pow2(16)
  }

  lemma IdentityDecodes(connectionId: nat, tx: nat, f: Fields)
    requires Packable(f) && connectionId < Pow2(64) && tx < Pow2(32)
    ensures var p := Identity(connectionId, tx, f);
            && UnBE(p[0..8]) == connectionId && UnBE(p[8..12]) == 1 && UnBE(p[12..16]) == tx
            && p[16..36] == f.infoHash && p[36..56] == f.peerId
  {
    IdentityPieces(BE(connectionId, 8), BE(1, 4), BE(tx, 4), f.infoHash, f.peerId);
    BERoundTrip(connectionId, 8);
    BERoundTrip(tx, 4);
    assert UnBE(BE(1, 4)) == 1 by {
      Pow2Values();
      BERoundTrip(1, 4);
    }
  }

  lemma IdentityPieces(a: string, b: string, c: string, d: string, e: string)
    requires |a| == 8 && |b| == |c| == 4 && |d| == |e| == 20
    ensures var p := a + b + c + d + e;
            p[0..8] == a && p[8..12] == b && p[12..16] == c && p[16..36] == d && p[36..56] == e
  {
  }

  lemma CountersDecode(f: Fields)
    requires FitsPacket(f)
    ensures var p := Counters(f);
            UnBE(p[0..8]) == f.downloaded && UnBE(p[8..16]) == f.left && UnBE(p[16..24]) == f.uploaded
  {
    CounterPieces(BE(f.downloaded, 8), BE(f.left, 8), BE(f.uploaded, 8));
    BERoundTrip(f.downloaded, 8);
    BERoundTrip(f.left, 8);
    BERoundTrip(f.uploaded, 8);
  }

  lemma CounterPieces(a: string, b: string, c: string)
    requires |a| == |b| == |c| == 8
    ensures var p := a + b + c; p[0..8] == a && p[8..16] == b && p[16..24] == c
  {
  }

  lemma TrailerSlices(f: Fields)
    requires Packable(f)
    ensures var p := Trailer(f);
            && p[0..4] == BE(f.event, 4) && p[4..8] == (if f.ip.Some? then f.ip.value else BE(0, 4))
            && p[8..12] == BE(f.key, 4) && p[12..16] == BE(Uint32(f.numwant), 4) && p[16..18] == BE(f.port, 2)
  {
    TrailerPieces(BE(f.event, 4), if f.ip.Some? then f.ip.value else BE(0, 4), BE(f.key, 4),
               BE(Uint32(f.numwant), 4), BE(f.port, 2));
  }

  lemma TrailerPieces(a: string, b: string, c: string, d: string, e: string)
    requires |a| == |b| == |c| == |d| == 4 && |e| == 2
    ensures var p := a + b + c + d + e;
            p[0..4] == a && p[4..8] == b && p[8..12] == c && p[12..16] == d && p[16..18] == e
  {
  }

  predicate ShowsTrailer(p: string, f: Fields)
    requires |p| == 18 && IsBytes(p)
  {
    && UnBE(p[0..4]) == f.event && p[4..8] == (if f.ip.Some? then f.ip.value else BE(0, 4))
    && UnBE(p[8..12]) == f.key && Int32(UnBE(p[12..16])) == f.numwant && UnBE(p[16..18]) == f.port
  }

  lemma TrailerDecodes(f: Fields)
    requires FitsPacket(f)
    ensures ShowsTrailer(Trailer(f), f)
  {
    Pow2Values();
    TrailerSlices(f);
    BERoundTrip(f.event, 4);
    BERoundTrip(f.key, 4);
    BERoundTrip(Uint32(f.numwant), 4);
    BERoundTrip(f.port, 2);
  }

  /** Decoding a packed request gives back every field. */
  lemma PacketRoundTrip(connectionId: nat, tx: nat, f: Fields)
    requires FitsPacket(f) && connectionId < Pow2(64) && tx < Pow2(32)
    ensures DecodeAnnounce(Packet(connectionId, tx, f)) ==
            Announce(connectionId, 1, tx, f.infoHash, f.peerId, f.downloaded, f.left, f.uploaded, f.event,
                     if f.ip.Some? then f.ip.value else BE(0, 4), f.key, f.numwant, f.port)
  {
    var p := Packet(connectionId, tx, f);
    IdentityDecodes(connectionId, tx, f);
    CountersDecode(f);
    TrailerDecodes(f);
    Slices(p, Identity(connectionId, tx, f), Counters(f), Trailer(f));
  }

  lemma Slices(p: string, a: string, b: string, c: string)
    requires p == a + b + c && |a| == 56 && |b| == 24 && |c| == 18
    ensures p[0..8] == a[0..8] && p[8..12] == a[8..12] && p[12..16] == a[12..16]
    ensures p[16..36] == a[16..36] && p[36..56] == a[36..56]
    ensures p[56..64] == b[0..8] && p[64..72] == b[8..16] && p[72..80] == b[16..24]
    ensures p[80..84] == c[0..4] && p[84..88] == c[4..8] && p[88..92] == c[8..12]
    ensures p[92..96] == c[12..16] && p[96..98] == c[16..18]
  {
  }

  // ----- From an announce to its packet -----

  /** What one announce carries. `peer` is the generated peer id, rune by rune; `keyText` is the
      generated key as the query shows it. */
  datatype Input = Input(
    infoHash: string, peer: seq<nat>, downloaded: nat, left: nat, uploaded: nat, port: nat,
    event: string, numwant: int, keyText: string, key: nat, ipText: string)

  predicate Sendable(a: Input) {
    && |a.infoHash| == 20 && IsBytes(a.infoHash)
    && |a.peer| == 20 && ByteRunes(a.peer)
    && a.downloaded <= MAX_INT64 && a.left <= MAX_INT64 && a.uploaded <= MAX_INT64
    && 1 <= a.port <= 65535
    && a.event in {"", "started", "stopped", "completed"}
    && -0x8000_0000 <= a.numwant < 0x8000_0000
    && IsBytes(a.keyText) && (if a.keyText == "" then a.key == 0 else ParseUint(a.keyText, 16, 32) == Some(a.key))
    && Unreserved(a.ipText)
  }

  /** How a client writes its queries: whether the peer id and the key are percent-encoded. */
  datatype Style = Style(encoder: Encoder, peerEncoded: bool, keyEncoded: bool)

  /** Nothing an announce carries is lost on the way: the encoder leaves neither '%' nor '&' as it is, and a
      peer id that is not encoded is ASCII text without them. */
  predicate Faithful(st: Style, a: Input) {
    && !st.encoder.excluded('%') && !st.encoder.excluded('&')
    && (st.peerEncoded || (PlainRunes(a.peer) && '&' as int !in a.peer))
  }

  predicate Unreserved(s: string) {
    '%' !in s && '&' !in s
  }

  const FIELD_KEYS: set<string> :=
    {"info_hash", "peer_id", "downloaded", "left", "uploaded", "port", "event", "numwant", "key", "ip"}

  /** The bytes a parameter stands for. */
  function Plain(a: Input, key: string): string
    requires ByteRunes(a.peer)
  {
    if key == "info_hash" then a.infoHash
    else if key == "peer_id" then RunesToBytes(a.peer)
    else if key == "downloaded" then FormatInt(a.downloaded)
    else if key == "left" then FormatInt(a.left)
    else if key == "uploaded" then FormatInt(a.uploaded)
    else if key == "port" then FormatInt(a.port)
    else if key == "event" then a.event
    else if key == "numwant" then FormatInt(a.numwant)
    else if key == "key" then a.keyText
    else a.ipText
  }

  /** The text a parameter gets in the query. */
  function Raw(st: Style, a: Input, key: string): string
    requires IsBytes(a.infoHash) && ByteRunes(a.peer) && IsBytes(a.keyText)
  {
    if key == "info_hash" then EncodedBytes(st.encoder, a.infoHash)
    else if key == "peer_id" then
      if st.peerEncoded then EncodedBytes(st.encoder, Narrow(RunesToString(a.peer))) else RunesToString(a.peer)
    else if key == "key" && st.keyEncoded then EncodedBytes(st.encoder, Narrow(a.keyText))
    else Plain(a, key)
  }

  predicate Mentions(params: seq<Param>, key: string) {
    exists i :: 0 <= i < |params| && params[i].key == key
  }

  /** `params` is a rendering of `a`: any order, any further well-formed parameters; an empty event,
      key or IP and the default numwant may be left out. */
  predicate Renders(params: seq<Param>, st: Style, a: Input)
    requires IsBytes(a.infoHash) && ByteRunes(a.peer) && IsBytes(a.keyText)
  {
    && (forall i :: 0 <= i < |params| ==>
          PlainKey(params[i].key)
          && if params[i].key in FIELD_KEYS then params[i].raw == Raw(st, a, params[i].key) else WellFormed(params[i]))
    && (forall k :: k in FIELD_KEYS && !Mentions(params, k) ==>
          (k == "event" && a.event == "") || (k == "numwant" && a.numwant == -1)
          || (k == "key" && a.keyText == "") || (k == "ip" && a.ipText == ""))
  }

  const FIELD_ORDER: seq<string> :=
    ["info_hash", "peer_id", "downloaded", "left", "uploaded", "port", "event", "numwant", "key", "ip"]

  /** The plain rendering: every field once. */
  function Rendering(st: Style, a: Input): (params: seq<Param>)
    requires IsBytes(a.infoHash) && ByteRunes(a.peer) && IsBytes(a.keyText)
    ensures |params| == |FIELD_ORDER|
  {
    seq(|FIELD_ORDER|, i requires 0 <= i < |FIELD_ORDER| => Param(FIELD_ORDER[i], Raw(st, a, FIELD_ORDER[i])))
  }

  /** Every announce has a rendering. */
  lemma EveryAnnounceRenders(st: Style, a: Input)
    requires Sendable(a)
    ensures Renders(Rendering(st, a), st, a)
  {
    hide Raw;
    var params := Rendering(st, a);
    forall i | 0 <= i < |params| ensures PlainKey(params[i].key) && params[i].key in FIELD_KEYS {
      FieldKeysArePlain(i);
    }
    forall k | k in FIELD_KEYS ensures Mentions(params, k) {
      var i := FieldAt(k);
      assert params[i].key == k;
    }
  }

  lemma FieldKeysArePlain(i: nat)
    requires i < |FIELD_ORDER|
    ensures PlainKey(FIELD_ORDER[i]) && FIELD_ORDER[i] in FIELD_KEYS
  {
  }

  lemma FieldAt(k: string) returns (i: nat)
    requires k in FIELD_KEYS
    ensures i < |FIELD_ORDER| && FIELD_ORDER[i] == k
  {
    i := if k == "info_hash" then 0 else if k == "peer_id" then 1 else if k == "downloaded" then 2
         else if k == "left" then 3 else if k == "uploaded" then 4 else if k == "port" then 5
         else if k == "event" then 6 else if k == "numwant" then 7 else if k == "key" then 8 else 9;
  }

  lemma FormatIntUnreserved(n: int)
    ensures Unreserved(FormatInt(n))
  {
    FormatIntLacks(n, '%');
    FormatIntLacks(n, '&');
  }

  /** Hex digits are ASCII and nothing a query splits or unescapes. */
  lemma {:induction false} DigitsAreUnreserved(s: string, base: nat)
    requires DigitsValue(s, base).Some?
    ensures IsAscii(s) && Unreserved(s)
    decreases |s|
  {
    if s == "" {
    } else {
      DigitsAreUnreserved(s[..|s| - 1], base);
      assert s == s[..|s| - 1] + [s[|s| - 1]];
    }
  }

  lemma TextFieldsAreUnreserved(a: Input)
    requires Sendable(a)
    ensures ByteRunes(a.peer) && IsBytes(a.infoHash)
    ensures Unreserved(a.event) && Unreserved(a.ipText) && Unreserved(a.keyText)
    ensures Narrow(a.keyText) == a.keyText
  {
    if a.keyText != "" {
      DigitsAreUnreserved(a.keyText, 16);
    }
    NarrowAscii(a.keyText);
  }

  lemma TextIsUnreserved(a: Input, key: string)
    requires Sendable(a) && key != "info_hash" && key != "peer_id"
    ensures Unreserved(Plain(a, key))
  {
    hide FormatInt, RunesToBytes, Unreserved, Sendable;
    TextFieldsAreUnreserved(a);
    var n := if key == "downloaded" then a.downloaded
             else if key == "left" then a.left
             else if key == "uploaded" then a.uploaded
             else if key == "port" then a.port
             else a.numwant;
    FormatIntUnreserved(n);
  }

  lemma EncodedDecodes(e: Encoder, data: string)
    requires IsBytes(data) && !e.excluded('%') && !e.excluded('&')
    ensures '&' !in EncodedBytes(e, data) && PathUnescape(EncodedBytes(e, data)) == Some(data)
  {
    EncodingIsLossless(e, data);
    EncodedHasNoAmpersand(e, data);
  }

  /** A peer id that is not encoded can be read back from its parameter exactly when it is ASCII text without
      '%' and '&'. */
  lemma RawPeerSurvivesExactly(peer: seq<nat>)
    requires ByteRunes(peer)
    ensures '&' !in RunesToString(peer) && PathUnescape(RunesToString(peer)) == Some(RunesToBytes(peer))
            <==> PlainRunes(peer) && '&' as int !in peer
  {
    RawRunesDecodeExactly(peer);
    if PlainRunes(peer) {
      PlainRunesText(peer);
      RunesShow(peer, '&');
    }
  }

  lemma {:induction false} RunesShow(runes: seq<nat>, c: char)
    requires PlainRunes(runes) && c as int < 0x80
    ensures c as int in runes <==> c in RunesToBytes(runes)
    decreases |runes|
  {
    if runes == [] {
    } else {
      RunesShow(runes[1..], c);
      assert runes == [runes[0]] + runes[1..];
    }
  }

  lemma RawDecodes(st: Style, a: Input, key: string)
    requires Sendable(a) && Faithful(st, a)
    ensures '&' !in Raw(st, a, key) && PathUnescape(Raw(st, a, key)) == Some(Plain(a, key))
  {
    hide PathUnescape, EncodedBytes, RunesToString, RunesToBytes, Narrow, Sendable, FormatInt, PlainRunes, Unreserved;
    TextFieldsAreUnreserved(a);
    if key == "info_hash" {
      EncodedDecodes(st.encoder, a.infoHash);
    } else if key == "peer_id" {
      if st.peerEncoded {
        NarrowRunes(a.peer);
        EncodedDecodes(st.encoder, RunesToBytes(a.peer));
      } else {
        RawPeerSurvivesExactly(a.peer);
      }
    } else if key == "key" && st.keyEncoded {
      EncodedDecodes(st.encoder, a.keyText);
    } else {
      PlainTextDecodes(a, key);
    }
  }

  lemma PlainTextDecodes(a: Input, key: string)
    requires Sendable(a) && key != "info_hash" && key != "peer_id"
    ensures '&' !in Plain(a, key) && PathUnescape(Plain(a, key)) == Some(Plain(a, key))
  {
    hide FormatInt, RunesToBytes, Plain;
    TextIsUnreserved(a, key);
    PlainTextUnescapes(Plain(a, key));
  }

  /** What the parsed map shows for a field. */
  function Shown(params: seq<Param>, a: Input, key: string): string
    requires ByteRunes(a.peer)
  {
    if Mentions(params, key) then Plain(a, key) else ""
  }

  lemma ParsedFields(params: seq<Param>, st: Style, a: Input, key: string)
    requires Sendable(a) && Faithful(st, a) && Renders(params, st, a) && key in FIELD_KEYS
    ensures Lookup(Decoded(params, map[]), key) == Shown(params, a, key)
  {
    RawDecodes(st, a, key);
    DecodedLookup(params, map[], key, Plain(a, key));
  }

  lemma RenderedParams(params: seq<Param>, st: Style, a: Input)
    requires Sendable(a) && Faithful(st, a) && Renders(params, st, a)
    ensures forall i :: 0 <= i < |params| ==> WellFormed(params[i])
  {
    forall i | 0 <= i < |params| ensures WellFormed(params[i]) {
      RawDecodes(st, a, params[i].key);
    }
  }

  function Sent(a: Input, parseIPv4: string -> Option<string>): Fields
    requires ByteRunes(a.peer)
  {
    Fields(a.infoHash, RunesToBytes(a.peer), a.downloaded, a.left, a.uploaded,
           UdpEvent(a.event), parseIPv4(a.ipText), a.key, a.numwant, a.port)
  }

  lemma NumbersParse(a: Input)
    requires Sendable(a)
    ensures ParseInt(FormatInt(a.downloaded), 64) == Some(a.downloaded)
    ensures ParseInt(FormatInt(a.left), 64) == Some(a.left)
    ensures ParseInt(FormatInt(a.uploaded), 64) == Some(a.uploaded)
    ensures ParseUint(FormatInt(a.port), 10, 16) == Some(a.port)
    ensures ParseInt(FormatInt(a.numwant), 32) == Some(a.numwant) && FormatInt(a.numwant) != ""
  {
    hide FormatUint, ParseInt, ParseUint, Pow2, RunesToBytes, Unreserved;
    Pow2Values();
    FormatIntRoundTrip(a.downloaded, 64);
    FormatIntRoundTrip(a.left, 64);
    FormatIntRoundTrip(a.uploaded, 64);
    FormatUintParses(a.port, 10, 16);
    FormatIntRoundTrip(a.numwant, 32);
    FormatIntLacks(a.numwant, '%');
  }

  lemma RenderedFieldsCheck(params: seq<Param>, st: Style, a: Input, parseIPv4: string -> Option<string>)
    requires Sendable(a) && Faithful(st, a) && Renders(params, st, a)
    ensures CheckValues(Decoded(params, map[]), parseIPv4) == Good(Sent(a, parseIPv4))
  {
    var values := Decoded(params, map[]);
    ShownFields(params, st, a);
    TextsCheck(values, a, parseIPv4);
  }

  predicate ShowsTexts(values: map<string, string>, a: Input)
    requires ByteRunes(a.peer)
  {
    && Lookup(values, "info_hash") == a.infoHash
    && Lookup(values, "peer_id") == RunesToBytes(a.peer)
    && Lookup(values, "downloaded") == FormatInt(a.downloaded)
    && Lookup(values, "left") == FormatInt(a.left)
    && Lookup(values, "uploaded") == FormatInt(a.uploaded)
    && Lookup(values, "port") == FormatInt(a.port)
    && Lookup(values, "event") == a.event
    && Lookup(values, "key") == a.keyText
    && Lookup(values, "ip") == a.ipText
    && (Lookup(values, "numwant") == FormatInt(a.numwant) || (Lookup(values, "numwant") == "" && a.numwant == -1))
  }

  lemma ShownFields(params: seq<Param>, st: Style, a: Input)
    requires Sendable(a) && Faithful(st, a) && Renders(params, st, a)
    ensures ShowsTexts(Decoded(params, map[]), a)
  {
    hide FormatInt, Decoded, Lookup, Mentions, RunesToBytes, ByteRunes;
    forall k | k in FIELD_KEYS ensures Lookup(Decoded(params, map[]), k) == Shown(params, a, k) {
      ParsedFields(params, st, a, k);
    }
    assert Mentions(params, "info_hash") && Mentions(params, "peer_id") && Mentions(params, "port");
    assert Mentions(params, "downloaded") && Mentions(params, "left") && Mentions(params, "uploaded");
  }

  lemma TextsCheck(values: map<string, string>, a: Input, parseIPv4: string -> Option<string>)
    requires Sendable(a) && ShowsTexts(values, a)
    ensures CheckValues(values, parseIPv4) == Good(Sent(a, parseIPv4))
  {
    hide FormatInt, Lookup, QueryInt64, NumwantValue, KeyValue, ParseUint, ParseInt, IsBytes, ByteRunes, UdpEvent;
    NumbersCheck(values, a);
  }

  lemma NumbersCheck(values: map<string, string>, a: Input)
    requires Sendable(a) && ShowsTexts(values, a)
    ensures QueryInt64(values, "downloaded") == Some(a.downloaded)
    ensures QueryInt64(values, "left") == Some(a.left)
    ensures QueryInt64(values, "uploaded") == Some(a.uploaded)
    ensures ParseUint(Lookup(values, "port"), 10, 16) == Some(a.port)
    ensures NumwantValue(Lookup(values, "numwant")) == Some(a.numwant)
    ensures KeyValue(Lookup(values, "key")) == Some(a.key)
  {
    hide FormatInt, Lookup, ParseUint, ParseInt, IsBytes, ByteRunes, RunesToBytes;
    NumbersParse(a);
  }

  lemma SentFitsPacket(a: Input, parseIPv4: string -> Option<string>)
    requires Sendable(a)
    requires parseIPv4(a.ipText).Some? ==> |parseIPv4(a.ipText).value| == 4 && IsBytes(parseIPv4(a.ipText).value)
    ensures FitsPacket(Sent(a, parseIPv4))
  {
    Pow2Values();
  }

  /** Rendering an announce into a query, parsing that query, packing the result and decoding the
      packet gives back everything the announce carried. */
  lemma AnnounceSurvivesTheWire(params: seq<Param>, st: Style, a: Input, connectionId: nat, tx: nat,
                                parseIPv4: string -> Option<string>)
    requires Sendable(a) && Faithful(st, a) && Renders(params, st, a)
    requires connectionId < Pow2(64) && tx < Pow2(32)
    requires parseIPv4(a.ipText).Some? ==> |parseIPv4(a.ipText).value| == 4 && IsBytes(parseIPv4(a.ipText).value)
    ensures var q := ParseQuery(Query(params), map[]);
            && q.Parsed?
            && var c := CheckValues(q.values, parseIPv4);
            && c.Good? && Packable(c.fields) && |Packet(connectionId, tx, c.fields)| == 98
            && var seen := DecodeAnnounce(Packet(connectionId, tx, c.fields));
            && seen == Received(a, connectionId, tx, seen.event, parseIPv4(a.ipText))
            && seen.event < 4 && EVENT_NAMES[seen.event] == a.event
  {
    hide Query, ParseQuery, Decoded, CheckValues, Packet, DecodeAnnounce, Renders, Faithful, UdpEvent;
    RenderedParams(params, st, a);
    QueryRoundTrip(params, map[]);
    RenderedFieldsCheck(params, st, a, parseIPv4);
    SentFitsPacket(a, parseIPv4);
    PacketRoundTrip(connectionId, tx, Sent(a, parseIPv4));
    EventIsNumbered(a.event);
  }

  /** What a tracker must see of an announce with the event of that number; an absent IPv4 address is sent
      as zero. */
  function Received(a: Input, connectionId: nat, tx: nat, event: nat, ip4: Option<string>): Announce
    requires ByteRunes(a.peer)
  {
    Announce(connectionId, 1, tx, a.infoHash, RunesToBytes(a.peer), a.downloaded, a.left, a.uploaded,
             event, if ip4.Some? then ip4.value else BE(0, 4), a.key, a.numwant, a.port)
  }
}
