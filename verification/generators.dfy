/** Peer-id generators: what each algorithm can draw, when one sample drawn at construction
    justifies all later draws, and the caches in front of them. */
module Generators {
  import opened Numerals
  import opened Regex

  const PEER_ID_LENGTH := 20
  const RUNE_ERROR: nat := 0xfffd

  // ----- Algorithms. `rolls` lists the numbers the random source gives, in the order they are used. -----

  datatype Algorithm =
    | RegexAlg(tokens: seq<Token>)
    | HashAlg(length: nat, noLeadingZero: bool)
    | PoolAlg(prefix: Runes, pool: Runes, base: int)

  /** What NewAlgorithm accepts. */
  predicate Constructible(a: Algorithm) {
    match a
    case RegexAlg(_) => true
    case HashAlg(length, _) => length > 0
    case PoolAlg(prefix, pool, base) => |prefix| < PEER_ID_LENGTH && |pool| > 0 && base == |pool|
  }

  /** A rune as it is written to a string: a number that is no code point becomes U+FFFD. */
  function Written(r: nat): nat {
    if 0xd800 <= r <= 0xdfff || r > 0x10_ffff then RUNE_ERROR else r
  }

  function WrittenAll(rs: Runes): (w: Runes)
    ensures |w| == |rs|
    ensures forall i :: 0 <= i < |w| ==> w[i] == Written(rs[i])
  {
    seq(|rs|, i requires 0 <= i < |rs| => Written(rs[i]))
  }

  /** How often Generate writes a token. */
  function Times(t: Token): nat {
    if t.repeat == 0 then 1 else if t.repeat < 0 then 0 else t.repeat
  }

  function Copies(t: Token, n: nat): (u: seq<Token>)
    ensures |u| == n && forall i :: 0 <= i < n ==> u[i] == t
  {
    seq(n, i => t)
  }

  /** The tokens with every repetition written out. */
  function Units(tokens: seq<Token>): seq<Token> {
    if tokens == [] then [] else Copies(tokens[0], Times(tokens[0])) + Units(tokens[1..])
  }

  /** randInt(n): a number below `n` made from one number of the random source. */
  function Pick(roll: nat, n: nat): (k: nat)
    requires n > 0
    ensures k < n
  {
    roll % n
  }

  lemma PickSmall(k: nat, n: nat)
    requires k < n
    ensures Pick(k, n) == k
  {
  }

  function DrawUnit(t: Token, roll: nat): Runes {
    if |t.choices| > 0 then [Written(t.choices[Pick(roll, |t.choices|)])] else WrittenAll(t.literal)
  }

  function DrawUnits(units: seq<Token>, rolls: seq<nat>): Runes
    requires |rolls| >= |units|
  {
    if units == [] then [] else DrawUnit(units[0], rolls[0]) + DrawUnits(units[1..], rolls[1..])
  }

  const HEX_DIGITS := "0123456789ABCDEF"

  function DrawHex(length: nat, rolls: seq<nat>): (s: Runes)
    requires |rolls| >= length
    ensures |s| == length
    ensures forall i :: 0 <= i < length ==> s[i] == HEX_DIGITS[Pick(rolls[i], 16)] as int
  {
    seq(length, i requires 0 <= i < length => HEX_DIGITS[Pick(rolls[i], 16)] as int)
  }

  function TrimLeftZeros(s: Runes): (t: Runes)
    ensures |t| <= |s|
  {
    if s != [] && s[0] == '0' as int then TrimLeftZeros(s[1..]) else s
  }

  /** The suffix digits of a pool draw: random ones, then the check digit. */
  function PoolDigits(base: nat, n: nat, rolls: seq<nat>): (d: seq<nat>)
    requires base > 0 && n > 0 && |rolls| >= n - 1
    ensures |d| == n && forall i :: 0 <= i < n ==> d[i] < base
  {
    var random := seq(n - 1, i requires 0 <= i < n - 1 => Pick(rolls[i], base));
    random + [CheckDigit(base, Sum(random))]
  }

  function CheckDigit(base: nat, total: nat): (d: nat)
    requires base > 0
    ensures d < base
  {
    if total % base != 0 then base - total % base else 0
  }

  function Sum(d: seq<nat>): nat {
    if d == [] then 0 else Sum(d[..|d| - 1]) + d[|d| - 1]
  }

  function Rolls(a: Algorithm): nat {
    match a
    case RegexAlg(tokens) => |Units(tokens)|
    case HashAlg(length, _) => length
    case PoolAlg(prefix, _, _) => if |prefix| < PEER_ID_LENGTH then PEER_ID_LENGTH - |prefix| - 1 else 0
  }

  function Drawn(a: Algorithm, rolls: seq<nat>): Runes
    requires Constructible(a) && |rolls| >= Rolls(a)
  {
    match a
    case RegexAlg(tokens) => DrawUnits(Units(tokens), rolls)
    case HashAlg(length, noLeadingZero) =>
      if noLeadingZero then TrimLeftZeros(DrawHex(length, rolls)) else DrawHex(length, rolls)
    case PoolAlg(prefix, pool, base) =>
      var digits := PoolDigits(base, PEER_ID_LENGTH - |prefix|, rolls);
      prefix + seq(|digits|, i requires 0 <= i < |digits| => pool[digits[i]])
  }

  // ----- The loops of the source -----

  method GenerateToken(t: Token, rolls: seq<nat>) returns (b: Runes)
    requires |rolls| >= Times(t)
    ensures b == DrawUnits(Copies(t, Times(t)), rolls)
  {
    hide DrawUnit;
    b := [];
    var repeat := t.repeat;
    if repeat == 0 {
      repeat := 1;
    }
    var i := 0;
    while i < repeat
      invariant 0 <= i <= Times(t)
      invariant DrawUnits(Copies(t, Times(t)), rolls) == b + DrawUnits(Copies(t, Times(t) - i), rolls[i..])
      decreases Times(t) - i
    {
      assert Copies(t, Times(t) - i)[1..] == Copies(t, Times(t) - i - 1);
      assert rolls[i..][1..] == rolls[i + 1..];
      b := b + DrawUnit(t, rolls[i]);
      i := i + 1;
    }
  }

  method GenerateRegex(tokens: seq<Token>, rolls: seq<nat>) returns (b: Runes)
    requires |rolls| >= |Units(tokens)|
    ensures b == DrawUnits(Units(tokens), rolls)
  {
    hide DrawUnit, DrawUnits, Copies, Times;
    b := [];
    var used: nat := 0;
    for k := 0 to |tokens|
      invariant used <= |rolls| && used + |Units(tokens[k..])| == |Units(tokens)|
      invariant DrawUnits(Units(tokens), rolls) == b + DrawUnits(Units(tokens[k..]), rolls[used..])
    {
      var t := tokens[k];
      assert tokens[k..][1..] == tokens[k + 1..];
      DrawUnitsConcat(Copies(t, Times(t)), Units(tokens[k + 1..]), rolls[used..]);
      var piece := GenerateToken(t, rolls[used..]);
      assert rolls[used..][Times(t)..] == rolls[used + Times(t)..];
      b := b + piece;
      used := used + Times(t);
    }
    NothingLeft(rolls[used..]);
  }

  lemma NothingLeft(rolls: seq<nat>)
    ensures DrawUnits(Units([]), rolls) == []
  {
  }

  lemma {:induction false} DrawUnitsConcat(u: seq<Token>, v: seq<Token>, rolls: seq<nat>)
    requires |rolls| >= |u| + |v|
    ensures DrawUnits(u + v, rolls) == DrawUnits(u, rolls) + DrawUnits(v, rolls[|u|..])
  {
    hide DrawUnit;
    if u == [] {
      assert u + v == v;
    } else {
      assert (u + v)[1..] == u[1..] + v;
      assert rolls[1..][|u| - 1..] == rolls[|u|..];
      DrawUnitsConcat(u[1..], v, rolls[1..]);
    }
  }

  method GenerateHash(length: nat, rolls: seq<nat>) returns (s: Runes)
    requires |rolls| >= length
    ensures s == DrawHex(length, rolls)
  {
    s := [];
    for i := 0 to length
      invariant s == DrawHex(length, rolls)[..i]
    {
      s := s + [HEX_DIGITS[Pick(rolls[i], 16)] as int];
    }
  }

  method GeneratePool(prefix: Runes, pool: Runes, base: int, rolls: seq<nat>) returns (s: Runes)
    requires Constructible(PoolAlg(prefix, pool, base)) && |rolls| >= Rolls(PoolAlg(prefix, pool, base))
    ensures s == Drawn(PoolAlg(prefix, pool, base), rolls)
  {
    hide Sum, Pick;
    var n := PEER_ID_LENGTH - |prefix|;
    ghost var random := seq(n - 1, i requires 0 <= i < n - 1 => Pick(rolls[i], base));
    var buf := new nat[n];
    var total := DrawPoolDigits(buf, pool, base, rolls, random);
    var check := 0;
    if total % base != 0 {
      check := base - total % base;
    }
    assert check == CheckDigit(base, total);
    PickSmall(check, |pool|);
    buf[n - 1] := pool[Pick(check, |pool|)];
    s := prefix + buf[..];
  }

  /** All digits but the last, and their sum. */
  method DrawPoolDigits(buf: array<nat>, pool: Runes, base: nat, rolls: seq<nat>, ghost random: seq<nat>)
    returns (total: nat)
    requires 0 < base <= |pool| && buf.Length == |random| + 1 && |rolls| >= |random|
    requires forall i :: 0 <= i < |random| ==> random[i] == Pick(rolls[i], base) && random[i] < |pool|
    modifies buf
    ensures total == Sum(random) && forall j :: 0 <= j < |random| ==> buf[j] == pool[random[j]]
  {
    total := 0;
    for i := 0 to buf.Length - 1
      invariant total == Sum(random[..i])
      invariant forall j :: 0 <= j < i ==> buf[j] == pool[random[j]]
    {
      var v := Pick(rolls[i], base);
      assert random[..i + 1][..i] == random[..i];
      total := total + v;
      PickSmall(v, |pool|);
      buf[i] := pool[Pick(v, |pool|)];
    }
    assert random[..buf.Length - 1] == random;
  }

  // ----- What is drawn -----

  /** The runes allowed at each position of a REGEX draw, and nothing about the random source. */
  function Slots(units: seq<Token>): seq<set<nat>> {
    if units == [] then [] else UnitSlots(units[0]) + Slots(units[1..])
  }

  function UnitSlots(t: Token): seq<set<nat>> {
    if |t.choices| > 0 then [set c | c in t.choices :: Written(c)]
    else seq(|t.literal|, i requires 0 <= i < |t.literal| => {Written(t.literal[i])})
  }

  predicate Follows(s: Runes, slots: seq<set<nat>>) {
    |s| == |slots| && forall i :: 0 <= i < |s| ==> s[i] in slots[i]
  }

  /** Every REGEX draw follows the tokens rune by rune. */
  lemma {:induction false} RegexFollowsTokens(units: seq<Token>, rolls: seq<nat>)
    requires |rolls| >= |units|
    ensures Follows(DrawUnits(units, rolls), Slots(units))
  {
    if units == [] {
    } else {
      hide DrawUnit, UnitSlots, Follows;
      RegexFollowsTokens(units[1..], rolls[1..]);
      UnitFollows(units[0], rolls[0]);
      FollowsConcat(DrawUnit(units[0], rolls[0]), UnitSlots(units[0]),
                    DrawUnits(units[1..], rolls[1..]), Slots(units[1..]));
    }
  }

  lemma UnitFollows(t: Token, roll: nat)
    ensures Follows(DrawUnit(t, roll), UnitSlots(t))
  {
    if |t.choices| > 0 {
      assert t.choices[Pick(roll, |t.choices|)] in t.choices;
    }
  }

  lemma FollowsConcat(s: Runes, slots: seq<set<nat>>, t: Runes, more: seq<set<nat>>)
    requires Follows(s, slots) && Follows(t, more)
    ensures Follows(s + t, slots + more)
  {
  }

  lemma UnitMatchCanBeDrawn(t: Token, s: Runes) returns (roll: nat)
    requires Follows(s, UnitSlots(t))
    ensures DrawUnit(t, roll) == s
  {
    roll := 0;
    if |t.choices| > 0 {
      assert s[0] in UnitSlots(t)[0];
      roll :| 0 <= roll < |t.choices| && Written(t.choices[roll]) == s[0];
      PickSmall(roll, |t.choices|);
    } else {
      assert forall i :: 0 <= i < |s| ==> s[i] in UnitSlots(t)[i];
    }
  }

  /** Every string that follows the tokens can be drawn. */
  lemma {:induction false} EveryMatchCanBeDrawn(units: seq<Token>, s: Runes) returns (rolls: seq<nat>)
    requires Follows(s, Slots(units))
    ensures |rolls| == |units| && DrawUnits(units, rolls) == s
  {
    hide DrawUnit, UnitSlots, Written;
    if units == [] {
      rolls := [];
    } else {
      var first := UnitSlots(units[0]);
      var n := |first|;
      assert s == s[..n] + s[n..];
      forall i | 0 <= i < n ensures s[..n][i] in first[i] {
        assert Slots(units)[i] == first[i];
      }
      forall i | 0 <= i < |s| - n ensures s[n..][i] in Slots(units[1..])[i] {
        assert Slots(units)[n + i] == Slots(units[1..])[i];
      }
      var roll := UnitMatchCanBeDrawn(units[0], s[..n]);
      var tail := EveryMatchCanBeDrawn(units[1..], s[n..]);
      rolls := [roll] + tail;
      assert rolls[1..] == tail;
    }
  }

  /** A rune that is a scalar value is written as it is, any other number as U+FFFD. */
  lemma WrittenIs(r: nat)
    ensures r < 0xd800 || 0xdfff < r < 0x11_0000 ==> Written(r) == r
    ensures 0xd800 <= r <= 0xdfff || r >= 0x11_0000 ==> Written(r) == 0xfffd
  {
  }

  /** The number of places the tokens of a parsed pattern fill. */
  function Places(tokens: seq<Token>): nat
    requires forall i :: 0 <= i < |tokens| ==> tokens[i].repeat >= 1
  {
    if tokens == [] then 0
    else tokens[0].repeat * (if |tokens[0].choices| > 0 then 1 else |tokens[0].literal|) + Places(tokens[1..])
  }

  /** A token is drawn as often as it is to be repeated. */
  lemma {:induction false} SlotsAreThePlaces(tokens: seq<Token>)
    requires forall i :: 0 <= i < |tokens| ==> tokens[i].repeat >= 1
    ensures |Slots(Units(tokens))| == Places(tokens)
    decreases |tokens|
  {
    if tokens == [] {
    } else {
      var t := tokens[0];
      SlotsConcat(Copies(t, Times(t)), Units(tokens[1..]));
      SlotsOfCopies(t, Times(t));
      SlotsAreThePlaces(tokens[1..]);
    }
  }

  lemma {:induction false} SlotsConcat(u: seq<Token>, v: seq<Token>)
    ensures Slots(u + v) == Slots(u) + Slots(v)
    decreases |u|
  {
    if u == [] {
      assert u + v == v;
    } else {
      assert (u + v)[1..] == u[1..] + v;
      SlotsConcat(u[1..], v);
    }
  }

  lemma {:induction false} SlotsOfCopies(t: Token, n: nat)
    ensures |Slots(Copies(t, n))| == n * (if |t.choices| > 0 then 1 else |t.literal|)
    decreases n
  {
    if n == 0 {
    } else {
      assert Copies(t, n)[1..] == Copies(t, n - 1);
      SlotsOfCopies(t, n - 1);
    }
  }

  predicate HexText(s: Runes) {
    forall i :: 0 <= i < |s| ==> '0' as int <= s[i] <= '9' as int || 'A' as int <= s[i] <= 'F' as int
  }

  lemma HexDigitsAre(k: nat)
    requires k < 16
    ensures HEX_DIGITS[k] as int == if k < 10 then '0' as int + k else 'A' as int + k - 10
  {
  }

  /** A HASH draw is a text of upper-case hex digits of its length, and each such text can be drawn. */
  lemma HashDrawsAreHexTexts(length: nat, rolls: seq<nat>, s: Runes) returns (found: seq<nat>)
    requires |rolls| >= length && |s| == length && HexText(s)
    ensures |DrawHex(length, rolls)| == length && HexText(DrawHex(length, rolls))
    ensures |found| == length && DrawHex(length, found) == s
  {
    forall i | 0 <= i < length ensures HexText([DrawHex(length, rolls)[i]]) {
      HexDigitsAre(Pick(rolls[i], 16));
    }
    forall i | 0 <= i < length
      ensures var d := DrawHex(length, rolls)[i];
              '0' as int <= d <= '9' as int || 'A' as int <= d <= 'F' as int
    {
      HexDigitsAre(Pick(rolls[i], 16));
    }
    found := seq(length, i requires 0 <= i < length =>
      if s[i] <= '9' as int then s[i] - '0' as int else s[i] - 'A' as int + 10);
    forall i | 0 <= i < length ensures HEX_DIGITS[Pick(found[i], 16)] as int == s[i] {
      PickSmall(found[i], 16);
      HexDigitsAre(found[i]);
    }
  }

  /** Dropping leading zeros drops them all, and nothing else. */
  lemma {:induction false} TrimIsExact(s: Runes) returns (n: nat)
    ensures n <= |s| && TrimLeftZeros(s) == s[n..]
    ensures forall i :: 0 <= i < n ==> s[i] == '0' as int
    ensures n < |s| ==> s[n] != '0' as int
    decreases |s|
  {
    n := 0;
    if s != [] && s[0] == '0' as int {
      n := TrimIsExact(s[1..]);
      n := n + 1;
    }
  }

  lemma {:induction false} SumAppend(d: seq<nat>, v: nat)
    ensures Sum(d + [v]) == Sum(d) + v
  {
    assert (d + [v])[..|d|] == d;
  }

  /** A pool draw is the prefix and one rune of the pool for each digit: any digits at all, and then the one that
      makes their sum a multiple of the base. */
  lemma PoolDrawsAreChecked(prefix: Runes, pool: Runes, base: int, rolls: seq<nat>)
    requires Constructible(PoolAlg(prefix, pool, base)) && |rolls| >= PEER_ID_LENGTH - |prefix| - 1
    ensures var n, drawn := PEER_ID_LENGTH - |prefix|, Drawn(PoolAlg(prefix, pool, base), rolls);
            var digits := PoolDigits(base, n, rolls);
            && |drawn| == 20 && drawn[..|prefix|] == prefix && |digits| == n
            && (forall i :: 0 <= i < n ==> digits[i] < base && drawn[|prefix| + i] == pool[digits[i]])
            && (forall i :: 0 <= i < n - 1 && rolls[i] < base ==> digits[i] == rolls[i])
            && Sum(digits) % base == 0
  {
    hide Sum, CheckDigit, Pick;
    var n := PEER_ID_LENGTH - |prefix|;
    PoolDigitsSumToZero(base, n, rolls);
    forall i | 0 <= i < n - 1 && rolls[i] < base ensures PoolDigits(base, n, rolls)[i] == rolls[i] {
      PickSmall(rolls[i], base);
    }
  }

  /** The suffix digits of every pool draw, check digit included, sum to a multiple of the base. */
  lemma PoolDigitsSumToZero(base: nat, n: nat, rolls: seq<nat>)
    requires base > 0 && n > 0 && |rolls| >= n - 1
    ensures Sum(PoolDigits(base, n, rolls)) % base == 0
  {
    var random := seq(n - 1, i requires 0 <= i < n - 1 => Pick(rolls[i], base));
    var total := Sum(random);
    SumAppend(random, CheckDigit(base, total));
    CheckDigitCompletes(base, total);
  }

  lemma CheckDigitCompletes(base: nat, total: nat)
    requires base > 0
    ensures (total + CheckDigit(base, total)) % base == 0
  {
    var q, r := total / base, total % base;
    assert total == base * q + r;
    if r == 0 {
      RemainderIs(total, base, q, 0);
    } else {
      assert base * (q + 1) == base * q + base;
      RemainderIs(total + (base - r), base, q + 1, 0);
    }
  }

  lemma RemainderIs(x: nat, base: nat, q: nat, r: nat)
    requires base > r && x == base * q + r
    ensures x % base == r
  {
    var d := q - x / base;
    assert base * d == x % base - r;
    if d >= 1 {
      MulAtLeast(base, d);
      assert false;
    } else if d <= -1 {
      MulAtLeast(base, -d);
      assert false;
    }
  }

  lemma MulAtLeast(base: nat, d: int)
    requires d >= 1
    ensures base * d >= base && base * -d <= 0 - base
  {
  }

  // ----- The check at construction -----

  /** peerIDByteLen: the number of runes, or None when one of them is no single byte. */
  function PeerIdByteLen(s: Runes): Option<nat> {
    if exists i :: 0 <= i < |s| && s[i] > 0xff then None else Some(|s|)
  }

  method CountPeerIdBytes(s: Runes) returns (n: nat, ok: bool)
    ensures ok ==> PeerIdByteLen(s) == Some(n)
    ensures !ok ==> PeerIdByteLen(s).None?
  {
    n := 0;
    for i := 0 to |s|
      invariant n == i && forall j :: 0 <= j < i ==> s[j] <= 0xff
    {
      if s[i] > 0xff {
        return 0, false;
      }
      n := n + 1;
    }
    return n, true;
  }

  /** What validatePeerIDGenerator asks of its one sample. */
  predicate Acceptable(sample: Runes) {
    PeerIdByteLen(sample) == Some(PEER_ID_LENGTH)
  }

  /** A sample is acceptable when it has twenty runes, each of which is a byte. */
  lemma AcceptableExactly(sample: Runes)
    ensures Acceptable(sample) <==> |sample| == 20 && forall i :: 0 <= i < |sample| ==> sample[i] <= 0xff
  {
  }

  /** For these algorithms the length does not depend on the random source. */
  predicate FixedLength(a: Algorithm) {
    !(a.HashAlg? && a.noLeadingZero)
  }

  lemma DrawLength(a: Algorithm, rolls: seq<nat>)
    requires Constructible(a) && FixedLength(a) && |rolls| >= Rolls(a)
    ensures |Drawn(a, rolls)| == match a
                                 case RegexAlg(tokens) => |Slots(Units(tokens))|
                                 case HashAlg(length, _) => length
                                 case PoolAlg(_, _, _) => PEER_ID_LENGTH
  {
    if a.RegexAlg? {
      RegexFollowsTokens(Units(a.tokens), rolls);
    }
  }

  /** One acceptable sample fixes the length of every draw. */
  lemma OneSampleFixesTheLength(a: Algorithm, sample: seq<nat>, rolls: seq<nat>)
    requires Constructible(a) && FixedLength(a) && |sample| >= Rolls(a) && |rolls| >= Rolls(a)
    requires Acceptable(Drawn(a, sample))
    ensures |Drawn(a, rolls)| == PEER_ID_LENGTH
  {
    DrawLength(a, sample);
    DrawLength(a, rolls);
  }

  /** Without leading zeros no sample fixes the length: the same generator can draw the empty string. */
  lemma {:induction false} LeadingZeroDropBreaksTheLength(length: nat)
    requires length > 0
    ensures Drawn(HashAlg(length, true), seq(length, i => 0)) == []
    ensures length == PEER_ID_LENGTH ==> Acceptable(Drawn(HashAlg(length, true), seq(length, i => 1)))
  {
    hide Acceptable;
    var zeros := DrawHex(length, seq(length, i => 0));
    TrimAllZeros(zeros);
    if length == PEER_ID_LENGTH {
      OnesAreAcceptable();
    }
  }

  lemma OnesAreAcceptable()
    ensures Acceptable(Drawn(HashAlg(PEER_ID_LENGTH, true), seq(PEER_ID_LENGTH, i => 1)))
  {
  }

  lemma {:induction false} TrimAllZeros(s: Runes)
    requires forall i :: 0 <= i < |s| ==> s[i] == '0' as int
    ensures TrimLeftZeros(s) == []
  {
    if s == [] {
    } else {
      TrimAllZeros(s[1..]);
    }
  }

  predicate SlotsAreBytes(slots: seq<set<nat>>) {
    forall i, r :: 0 <= i < |slots| && r in slots[i] ==> r <= 0xff
  }

  predicate RunesAreBytes(rs: Runes) {
    forall i :: 0 <= i < |rs| ==> rs[i] <= 0xff
  }

  /** The runes a pool generator can write: all of its pool, except that a 19-rune prefix leaves
      room for the check digit alone, which is then always the first rune of the pool. */
  predicate PoolIsBytes(a: Algorithm)
    requires a.PoolAlg? && Constructible(a)
  {
    && RunesAreBytes(a.prefix)
    && (if |a.prefix| == PEER_ID_LENGTH - 1 then a.pool[0] <= 0xff else RunesAreBytes(a.pool))
  }

  /** Exactly when every draw passes the check that the constructor makes on one sample. */
  predicate AlwaysAcceptable(a: Algorithm)
    requires Constructible(a)
  {
    match a
    case RegexAlg(tokens) =>
      |Slots(Units(tokens))| == PEER_ID_LENGTH && SlotsAreBytes(Slots(Units(tokens)))
    case HashAlg(length, noLeadingZero) => length == PEER_ID_LENGTH && !noLeadingZero
    case PoolAlg(_, _, _) => PoolIsBytes(a)
  }

  lemma AlwaysAcceptableExactly(a: Algorithm)
    requires Constructible(a)
    ensures AlwaysAcceptable(a) <==> forall rolls | |rolls| >= Rolls(a) :: Acceptable(Drawn(a, rolls))
  {
    if AlwaysAcceptable(a) {
      forall rolls | |rolls| >= Rolls(a) ensures Acceptable(Drawn(a, rolls)) {
        AlwaysAcceptableDraw(a, rolls);
      }
    } else {
      var rolls := UnacceptableDraw(a);
    }
  }

  lemma AlwaysAcceptableDraw(a: Algorithm, rolls: seq<nat>)
    requires Constructible(a) && AlwaysAcceptable(a) && |rolls| >= Rolls(a)
    ensures Acceptable(Drawn(a, rolls))
  {
    hide Pick;
    match a
    case RegexAlg(tokens) => RegexFollowsTokens(Units(tokens), rolls);
    case HashAlg(_, _) => HexIsBytes();
    case PoolAlg(prefix, pool, base) => PoolDrawIsBytes(a, rolls);
  }

  lemma HexIsBytes()
    ensures forall k :: 0 <= k < 16 ==> HEX_DIGITS[k] as int <= 0xff
  {
  }

  lemma PoolDrawIsBytes(a: Algorithm, rolls: seq<nat>)
    requires a.PoolAlg? && Constructible(a) && PoolIsBytes(a) && |rolls| >= Rolls(a)
    ensures Acceptable(Drawn(a, rolls))
  {
    hide Pick, CheckDigit;
    if |a.prefix| == PEER_ID_LENGTH - 1 {
      PoolDrawn(a, rolls);
    }
  }

  lemma UnacceptableDraw(a: Algorithm) returns (rolls: seq<nat>)
    requires Constructible(a) && !AlwaysAcceptable(a)
    ensures |rolls| >= Rolls(a) && !Acceptable(Drawn(a, rolls))
  {
    match a
    case RegexAlg(tokens) => rolls := UnacceptableRegexDraw(Units(tokens));
    case HashAlg(length, noLeadingZero) =>
      rolls := seq(length, i => 0);
      if noLeadingZero {
        LeadingZeroDropBreaksTheLength(length);
      }
    case PoolAlg(prefix, pool, base) => rolls := UnacceptablePoolDraw(a);
  }

  lemma UnacceptableRegexDraw(units: seq<Token>) returns (rolls: seq<nat>)
    requires |Slots(units)| != PEER_ID_LENGTH || !SlotsAreBytes(Slots(units))
    ensures |rolls| >= |units| && !Acceptable(DrawUnits(units, rolls))
  {
    SlotsAreInhabited(units);
    var slots := Slots(units);
    var s := SomeMatch(slots);
    if |slots| == PEER_ID_LENGTH {
      var i, r :| 0 <= i < |slots| && r in slots[i] && r > 0xff;
      s := s[i := r];
      assert s[i] > 0xff;
    }
    rolls := EveryMatchCanBeDrawn(units, s);
  }

  lemma {:induction false} SlotsAreInhabited(units: seq<Token>)
    ensures forall i :: 0 <= i < |Slots(units)| ==> Slots(units)[i] != {}
  {
    if units == [] {
    } else {
      SlotsAreInhabited(units[1..]);
      var t := units[0];
      if |t.choices| > 0 {
        assert Written(t.choices[0]) in UnitSlots(t)[0];
      }
    }
  }

  lemma {:induction false} SomeMatch(slots: seq<set<nat>>) returns (s: Runes)
    requires forall i :: 0 <= i < |slots| ==> slots[i] != {}
    ensures Follows(s, slots)
  {
    if slots == [] {
      s := [];
    } else {
      var r :| r in slots[0];
      var tail := SomeMatch(slots[1..]);
      s := [r] + tail;
    }
  }

  lemma PoolDrawn(a: Algorithm, rolls: seq<nat>)
    requires a.PoolAlg? && Constructible(a) && |rolls| >= Rolls(a)
    ensures |Drawn(a, rolls)| == PEER_ID_LENGTH
    ensures forall i :: 0 <= i < |a.prefix| ==> Drawn(a, rolls)[i] == a.prefix[i]
    ensures |a.prefix| < PEER_ID_LENGTH - 1 ==> Drawn(a, rolls)[|a.prefix|] == a.pool[Pick(rolls[0], a.base)]
    ensures |a.prefix| == PEER_ID_LENGTH - 1 ==> Drawn(a, rolls)[|a.prefix|] == a.pool[0]
  {
    hide Pick;
    var n := PEER_ID_LENGTH - |a.prefix|;
    var digits := PoolDigits(a.base, n, rolls);
    if n == 1 {
      assert digits[0] == CheckDigit(a.base, Sum([]));
    } else {
      assert digits[0] == Pick(rolls[0], a.base);
    }
  }

  lemma UnacceptablePoolDraw(a: Algorithm) returns (rolls: seq<nat>)
    requires a.PoolAlg? && Constructible(a) && !PoolIsBytes(a)
    ensures |rolls| >= Rolls(a) && !Acceptable(Drawn(a, rolls))
  {
    hide Drawn, Pick;
    var k := 0;
    if RunesAreBytes(a.prefix) && |a.prefix| < PEER_ID_LENGTH - 1 {
      k :| 0 <= k < |a.pool| && a.pool[k] > 0xff;
    }
    rolls := seq(Rolls(a), i => k);
    PoolDrawn(a, rolls);
    PickSmall(k, a.base);
    var s := Drawn(a, rolls);
    if !RunesAreBytes(a.prefix) {
      var i :| 0 <= i < |a.prefix| && a.prefix[i] > 0xff;
      assert s[i] > 0xff;
    } else {
      assert s[|a.prefix|] > 0xff;
    }
  }

  /** A class that reaches past U+00FF: its sample passes, a later draw does not. */
  lemma SampleMissesWideRune()
    ensures var a := RegexAlg([Token(['a' as int, 0x100], [], 20)]);
            exists good, bad :: |good| >= Rolls(a) && |bad| >= Rolls(a)
                               && Acceptable(Drawn(a, good)) && !Acceptable(Drawn(a, bad))
  {
    var t := Token(['a' as int, 0x100], [], 20);
    var a := RegexAlg([t]);
    assert Units([t]) == Copies(t, 20);
    var good, bad := seq(20, i => 0), seq(20, i => 1);
    RepeatedDraw(t, 20, good, 'a' as int);
    RepeatedDraw(t, 20, bad, 0x100);
    assert Drawn(a, bad)[0] == 0x100;
    assert Acceptable(Drawn(a, good)) && !Acceptable(Drawn(a, bad));
  }

  lemma {:induction false} RepeatedDraw(t: Token, n: nat, rolls: seq<nat>, r: nat)
    requires |rolls| == n && forall i :: 0 <= i < n ==> DrawUnit(t, rolls[i]) == [r]
    ensures DrawUnits(Copies(t, n), rolls) == seq(n, i => r)
  {
    if n == 0 {
    } else {
      assert Copies(t, n)[1..] == Copies(t, n - 1);
      RepeatedDraw(t, n - 1, rolls[1..], r);
    }
  }

  // ----- The generator and its caches -----

  datatype RefreshOn = Always | Timed | TimedOrAfterStarted | TorrentVolatile | TorrentPersistent | Never

  /** Cached values of a torrent live this long after their last use. Times are in nanoseconds. */
  const PERSISTENT_TTL := 120 * 60 * 1_000_000_000

  ghost predicate IsDraw(a: Algorithm, s: Runes)
    requires Constructible(a)
  {
    exists rolls | |rolls| >= Rolls(a) :: s == Drawn(a, rolls)
  }

  /** The construction check held for some sample. */
  ghost predicate Sampled(a: Algorithm)
    requires Constructible(a)
  {
    exists s :: IsDraw(a, s) && Acceptable(s)
  }

  lemma SampledDrawsHave20Runes(a: Algorithm, s: Runes)
    requires Constructible(a) && FixedLength(a) && Sampled(a) && IsDraw(a, s)
    ensures |s| == PEER_ID_LENGTH
  {
    var sample :| IsDraw(a, sample) && Acceptable(sample);
    var r1 :| |r1| >= Rolls(a) && sample == Drawn(a, r1);
    var r2 :| |r2| >= Rolls(a) && s == Drawn(a, r2);
    OneSampleFixesTheLength(a, r1, r2);
  }

  /** The touched torrents whose value is kept at time `now`. */
  predicate Fresh(touch: map<string, int>, k: string, now: int) {
    k in touch ==> now - touch[k] < PERSISTENT_TTL
  }

  lemma UntouchedAreFresh(touch: map<string, int>, now: int)
    ensures forall k :: k !in touch ==> Fresh(touch, k, now)
  {
  }

  lemma FreshIs(touch: map<string, int>, k: string, now: int)
    requires k in touch
    ensures Fresh(touch, k, now) <==> now - touch[k] < PERSISTENT_TTL
    ensures Fresh(touch, k, now) <==> now < touch[k] + 2 * 3600 * 1_000_000_000
  {
  }

  class Generator {
    const alg: Algorithm
    const refreshOn: RefreshOn
    const refreshEvery: int
    var globalValue: Runes
    var lastGeneration: int
    var perTorrent: map<string, Runes>
    var perTorrentTouch: map<string, int>

    ghost predicate Valid()
      reads this
    {
      && Constructible(alg)
      && (globalValue != [] ==> IsDraw(alg, globalValue))
      && (forall k :: k in perTorrent ==> IsDraw(alg, perTorrent[k]))
    }

    constructor (alg: Algorithm, refreshOn: RefreshOn, refreshEvery: int, rolls: seq<nat>)
      requires Constructible(alg) && |rolls| >= Rolls(alg)
      ensures Valid() && this.alg == alg && this.refreshOn == refreshOn && this.refreshEvery == refreshEvery
      ensures globalValue == (if refreshOn.Never? then Drawn(alg, rolls) else [])
      ensures perTorrent == map[] && perTorrentTouch == map[]
    {
      hide Constructible, Rolls, Drawn, IsDraw;
      this.alg := alg;
      this.refreshOn := refreshOn;
      this.refreshEvery := refreshEvery;
      perTorrent, perTorrentTouch := map[], map[];
      globalValue, lastGeneration := [], 0;
      new;
      if refreshOn.Never? {
        globalValue := Generate(rolls);
      }
    }

    method Generate(rolls: seq<nat>) returns (v: Runes)
      requires Constructible(alg) && |rolls| >= Rolls(alg)
      ensures v == Drawn(alg, rolls) && IsDraw(alg, v)
    {
      match alg
      case RegexAlg(tokens) => v := GenerateRegex(tokens, rolls);
      case HashAlg(length, noLeadingZero) =>
        v := GenerateHash(length, rolls);
        if noLeadingZero {
          v := TrimLeftZeros(v);
        }
      case PoolAlg(prefix, pool, base) => v := GeneratePool(prefix, pool, base, rolls);
    }

    /** The construction check; it draws its own sample unless a value exists already. */
    method Validate(rolls: seq<nat>) returns (ok: bool)
      requires Valid() && |rolls| >= Rolls(alg)
      ensures ok ==> Sampled(alg)
      ensures ok <==> Acceptable(if globalValue == [] then Drawn(alg, rolls) else globalValue)
    {
      var sample := globalValue;
      if sample == [] {
        sample := Generate(rolls);
      }
      assert IsDraw(alg, sample);
      var n, bytes := CountPeerIdBytes(sample);
      ok := bytes && n == PEER_ID_LENGTH;
    }

    predicate PerTorrent() {
      refreshOn.TorrentVolatile? || refreshOn.TorrentPersistent?
    }

    /** The value for all torrents has to be drawn. */
    predicate Stale(now: int)
      reads this
    {
      globalValue == [] || (!refreshOn.Never? && now - lastGeneration >= refreshEvery)
    }

    /** What one announce does to the value for all torrents: `Always` draws beside it, a stale one is
        drawn anew, and the announce of `started` leaves a new one for the next announce. */
    twostate predicate GlobalStep(v: Runes, started: bool, now: int, rolls: seq<nat>, rolls2: seq<nat>)
      reads this
      requires Constructible(alg) && |rolls| >= Rolls(alg) && |rolls2| >= Rolls(alg)
    {
      if refreshOn.Always? then
        v == Drawn(alg, rolls) && globalValue == old(globalValue) && lastGeneration == old(lastGeneration)
      else
        && v == (if old(Stale(now)) then Drawn(alg, rolls) else old(globalValue))
        && globalValue == (if refreshOn.TimedOrAfterStarted? && started then Drawn(alg, rolls2) else v)
        && lastGeneration == if !refreshOn.Never? && (old(Stale(now)) || (refreshOn.TimedOrAfterStarted? && started))
                             then now else old(lastGeneration)
    }

    /** The value for one announce. `rolls` and `rolls2` feed the (at most two) draws. */
    method Get(infoHash: string, started: bool, stopped: bool, now: int, rolls: seq<nat>, rolls2: seq<nat>)
      returns (v: Runes)
      requires Valid() && |rolls| >= Rolls(alg) && |rolls2| >= Rolls(alg)
      modifies this
      ensures Valid() && IsDraw(alg, v)
      ensures FixedLength(alg) && Sampled(alg) ==> |v| == PEER_ID_LENGTH
      ensures !PerTorrent() ==> perTorrent == old(perTorrent) && perTorrentTouch == old(perTorrentTouch)
      ensures !PerTorrent() ==> GlobalStep(v, started, now, rolls, rolls2)
      ensures refreshOn.Always? ==> v == Drawn(alg, rolls) && globalValue == old(globalValue)
      ensures refreshOn.Timed? || refreshOn.TimedOrAfterStarted? ==>
                v == if old(globalValue) == [] || now >= old(lastGeneration) + refreshEvery then Drawn(alg, rolls)
                     else old(globalValue)
      ensures refreshOn.Timed? ==>
                globalValue == v
                && lastGeneration == if old(globalValue) == [] || now >= old(lastGeneration) + refreshEvery then now
                                     else old(lastGeneration)
      ensures refreshOn.TimedOrAfterStarted? && started ==>
                globalValue == Drawn(alg, rolls2) && lastGeneration == now
      ensures refreshOn.TimedOrAfterStarted? && !started ==> globalValue == v
      ensures refreshOn.Never? ==>
                v == globalValue == if old(globalValue) == [] then Drawn(alg, rolls) else old(globalValue)
      ensures PerTorrent() ==> globalValue == old(globalValue) && lastGeneration == old(lastGeneration)
      ensures PerTorrent() ==>
                v == if infoHash in old(perTorrent) then old(perTorrent)[infoHash] else Drawn(alg, rolls)
      ensures refreshOn.TorrentVolatile? ==>
                && perTorrent == (if stopped then old(perTorrent) - {infoHash} else old(perTorrent)[infoHash := v])
                && perTorrentTouch == if stopped then old(perTorrentTouch) - {infoHash} else old(perTorrentTouch)
      ensures refreshOn.TorrentPersistent? ==>
                && perTorrent == (map k | k in old(perTorrent)[infoHash := v]
                                          && (k == infoHash || Fresh(old(perTorrentTouch), k, now))
                                        :: old(perTorrent)[infoHash := v][k])
                && perTorrentTouch == map k | k in old(perTorrentTouch)[infoHash := now]
                                              && (k == infoHash || Fresh(old(perTorrentTouch), k, now))
                                            :: old(perTorrentTouch)[infoHash := now][k]
    {
      hide IsDraw, Drawn, Sampled, Fresh, FixedLength;
      if refreshOn.TorrentVolatile? {
        v := Cached(infoHash, rolls);
        if stopped {
          perTorrent := perTorrent - {infoHash};
          perTorrentTouch := perTorrentTouch - {infoHash};
        }
      } else if refreshOn.TorrentPersistent? {
        v := Cached(infoHash, rolls);
        perTorrentTouch := perTorrentTouch[infoHash := now];
        FreshNow(perTorrentTouch, infoHash, now);
        OthersFreshAlike(old(perTorrentTouch), infoHash, now);
        DropExpired(now);
      } else {
        v := GetGlobal(started, now, rolls, rolls2);
      }
      SampledGives20Runes(v);
    }

    method GetGlobal(started: bool, now: int, rolls: seq<nat>, rolls2: seq<nat>) returns (v: Runes)
      requires Valid() && |rolls| >= Rolls(alg) && |rolls2| >= Rolls(alg)
      requires !PerTorrent()
      modifies this`globalValue, this`lastGeneration
      ensures Valid() && IsDraw(alg, v) && GlobalStep(v, started, now, rolls, rolls2)
    {
      hide IsDraw, Drawn;
      if refreshOn.Always? {
        v := Generate(rolls);
        return;
      }
      if globalValue == [] || (!refreshOn.Never? && now - lastGeneration >= refreshEvery) {
        v := Generate(rolls);
        globalValue := v;
        if !refreshOn.Never? {
          lastGeneration := now;
        }
      } else {
        v := globalValue;
      }
      if refreshOn.TimedOrAfterStarted? && started {
        globalValue := Generate(rolls2);
        lastGeneration := now;
      }
    }

    static lemma FreshNow(touch: map<string, int>, k: string, now: int)
      requires k in touch && touch[k] == now
      ensures Fresh(touch, k, now)
    {
    }

    static lemma OthersFreshAlike(touch: map<string, int>, infoHash: string, now: int)
      ensures forall k :: k != infoHash ==> Fresh(touch[infoHash := now], k, now) == Fresh(touch, k, now)
    {
    }

    lemma SampledGives20Runes(v: Runes)
      requires Constructible(alg) && IsDraw(alg, v)
      ensures FixedLength(alg) && Sampled(alg) ==> |v| == PEER_ID_LENGTH
    {
      if FixedLength(alg) && Sampled(alg) {
        SampledDrawsHave20Runes(alg, v);
      }
    }

    method Cached(infoHash: string, rolls: seq<nat>) returns (v: Runes)
      requires Valid() && |rolls| >= Rolls(alg)
      modifies this`perTorrent
      ensures Valid() && IsDraw(alg, v) && perTorrent == old(perTorrent)[infoHash := v]
      ensures v == if infoHash in old(perTorrent) then old(perTorrent)[infoHash] else Drawn(alg, rolls)
    {
      hide IsDraw, Drawn;
      if infoHash in perTorrent {
        v := perTorrent[infoHash];
      } else {
        v := Generate(rolls);
        perTorrent := perTorrent[infoHash := v];
      }
    }

    method DropExpired(now: int)
      requires Valid()
      modifies this`perTorrent, this`perTorrentTouch
      ensures Valid()
      ensures perTorrent == map k | k in old(perTorrent) && Fresh(old(perTorrentTouch), k, now) :: old(perTorrent)[k]
      ensures perTorrentTouch ==
              map k | k in old(perTorrentTouch) && Fresh(old(perTorrentTouch), k, now) :: old(perTorrentTouch)[k]
    {
      hide IsDraw, Drawn, Fresh;
      ghost var touch := perTorrentTouch;
      UntouchedAreFresh(touch, now);
      var todo := perTorrentTouch.Keys;
      while todo != {}
        invariant Valid() && todo <= touch.Keys
        invariant perTorrentTouch == map k | k in touch && (k in todo || Fresh(touch, k, now)) :: touch[k]
        invariant perTorrent ==
                  map k | k in old(perTorrent) && (k in todo || Fresh(touch, k, now)) :: old(perTorrent)[k]
        decreases todo
      {
        var k :| k in todo;
        todo := todo - {k};
        FreshIs(touch, k, now);
        if now - perTorrentTouch[k] >= PERSISTENT_TTL {
          perTorrent := perTorrent - {k};
          perTorrentTouch := perTorrentTouch - {k};
        }
      }
    }
  }

  /** NewGenerator; a timed generator whose period is below one second is refused. */
  method NewGenerator(alg: Algorithm, refreshOn: RefreshOn, seconds: int, rolls: seq<nat>) returns (g: Generator?)
    requires Constructible(alg) && |rolls| >= Rolls(alg)
    ensures g == null <==> (refreshOn.Timed? || refreshOn.TimedOrAfterStarted?) && seconds < 1
    ensures g != null ==> fresh(g) && g.Valid() && g.alg == alg && g.refreshOn == refreshOn
                          && g.refreshEvery == WrapInt64(seconds * 1_000_000_000)
                          && g.globalValue == (if refreshOn.Never? then Drawn(alg, rolls) else [])
                          && g.perTorrent == map[]
  {
    hide Constructible, Rolls, Drawn;
    if (refreshOn.Timed? || refreshOn.TimedOrAfterStarted?) && seconds < 1 {
      return null;
    }
    g := new Generator(alg, refreshOn, WrapInt64(seconds * 1_000_000_000), rolls);
  }
}
