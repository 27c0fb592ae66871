/** The pattern language of the REGEX generator. Runes are numbers, because a class range may run
    over code points that are not characters. */
module Regex {
  import opened Numerals

  type Runes = seq<nat>

  const OPEN_CLASS := '[' as int
  const CLOSE_CLASS := ']' as int
  const OPEN_GROUP := '(' as int
  const CLOSE_GROUP := ')' as int
  const OPEN_REPEAT := '{' as int
  const CLOSE_REPEAT := '}' as int
  const BACKSLASH := '\\' as int
  const DASH := '-' as int

  datatype Token = Token(choices: Runes, literal: Runes, repeat: int)

  datatype PatternError = UnterminatedClass | InvalidRange | UnterminatedGroup | DanglingEscape

  datatype ParsedPattern = Tokens(tokens: seq<Token>) | Rejected(error: PatternError)

  // ----- The language, as functions -----

  /** The first index from `j` on that holds `c`, or the length of `r`. */
  function IndexFrom(r: Runes, j: nat, c: nat): (k: nat)
    requires j <= |r|
    ensures j <= k <= |r|
    decreases |r| - j
  {
    if j == |r| || r[j] == c then j else IndexFrom(r, j + 1, c)
  }

  /** The index of the ']' that closes a class whose scan stands at `j`, or the length of `r`. */
  function ClassEnd(r: Runes, j: nat, escaped: bool): (k: nat)
    requires j <= |r|
    ensures j <= k <= |r|
    decreases |r| - j
  {
    if j == |r| || (!escaped && r[j] == CLOSE_CLASS) then j
    else ClassEnd(r, j + 1, !escaped && r[j] == BACKSLASH)
  }

  function ReadClassRune(r: Runes, i: nat): (p: (nat, nat))
    requires i < |r|
    ensures i < p.1 <= |r|
  {
    if r[i] == BACKSLASH && i + 1 < |r| then (r[i + 1], i + 2) else (r[i], i + 1)
  }

  function Range(start: nat, end: nat): (r: Runes)
    requires start <= end
    ensures |r| == end - start + 1 && forall i :: 0 <= i < |r| ==> r[i] == start + i
  {
    seq(end - start + 1, i requires 0 <= i => start + i)
  }

  /** The runes of a class from index `i` on, appended to `choices`; None for a range that runs backwards. */
  function ClassRunes(r: Runes, i: nat, choices: Runes): Option<Runes>
    requires i <= |r|
    decreases |r| - i
  {
    if i == |r| then Some(choices)
    else
      var (start, ni) := ReadClassRune(r, i);
      if ni < |r| - 1 && r[ni] == DASH then
        var (end, endI) := ReadClassRune(r, ni + 1);
        if end < start then None else ClassRunes(r, endI, choices + Range(start, end))
      else ClassRunes(r, ni, choices + [start])
  }

  /** A number's text; runes outside ASCII never stand for a digit or a sign. */
  function AsText(r: Runes): string {
    seq(|r|, i requires 0 <= i < |r| => if r[i] < 0x80 then r[i] as char else '?')
  }

  /** The repeat count at index `i` and the index after it; anything unusable counts as 1. */
  function Repeat(r: Runes, i: nat): (p: (int, nat))
    requires i <= |r|
    ensures i <= p.1 <= |r| && p.0 >= 1
  {
    if i == |r| || r[i] != OPEN_REPEAT then (1, i)
    else
      var j := IndexFrom(r, i + 1, CLOSE_REPEAT);
      if j == |r| then (1, i)
      else
        var n := ParseInt(AsText(r[i + 1..j]), 64);
        if n.None? || n.value < 1 then (1, j + 1) else (n.value, j + 1)
  }

  function Unescaped(r: Runes, i: nat, out: Runes): Runes
    requires i <= |r|
    decreases |r| - i
  {
    if i == |r| then out
    else if r[i] == BACKSLASH && i + 1 < |r| then Unescaped(r, i + 2, out + [r[i + 1]])
    else Unescaped(r, i + 1, out + [r[i]])
  }

  /** The tokens of the pattern from index `i` on, appended to `out`. */
  function Pattern(r: Runes, i: nat, out: seq<Token>): ParsedPattern
    requires i <= |r|
    decreases |r| - i
  {
    if i == |r| then Tokens(out)
    else if r[i] == OPEN_CLASS then
      var j := ClassEnd(r, i + 1, false);
      if j == |r| then Rejected(UnterminatedClass)
      else
        var choices := ClassRunes(r[i + 1..j], 0, []);
        if choices.None? then Rejected(InvalidRange)
        else
          var (rep, ni) := Repeat(r, j + 1);
          Pattern(r, ni, out + [Token(choices.value, [], rep)])
    else if r[i] == OPEN_GROUP then
      var j := IndexFrom(r, i + 1, CLOSE_GROUP);
      if j == |r| then Rejected(UnterminatedGroup)
      else
        var (rep, ni) := Repeat(r, j + 1);
        Pattern(r, ni, out + [Token([], Unescaped(r[i + 1..j], 0, []), rep)])
    else if r[i] == BACKSLASH then
      if i + 1 == |r| then Rejected(DanglingEscape)
      else Pattern(r, i + 2, out + [Token([], [r[i + 1]], 1)])
    else Pattern(r, i + 1, out + [Token([], [r[i]], 1)])
  }

  // ----- The parser, as the source runs it -----

  method ParseClass(r: Runes) returns (choices: Option<Runes>)
    ensures choices == ClassRunes(r, 0, [])
  {
    var out: Runes := [];
    var i := 0;
    while i < |r|
      invariant 0 <= i <= |r|
      invariant ClassRunes(r, 0, []) == ClassRunes(r, i, out)
      decreases |r| - i
    {
      var start := ReadClassRune(r, i);
      var ni := start.1;
      if ni < |r| - 1 && r[ni] == DASH {
        var end := ReadClassRune(r, ni + 1);
        if end.0 < start.0 {
          return None;
        }
        var before := out;
        for ch := start.0 to end.0 + 1
          invariant out == before + Range(start.0, end.0)[..ch - start.0]
        {
          out := out + [ch];
        }
        assert out == before + Range(start.0, end.0);
        i := end.1;
        continue;
      }
      out := out + [start.0];
      i := ni;
    }
    return Some(out);
  }

  method ParseRepeat(r: Runes, i: nat) returns (n: int, next: nat)
    requires i <= |r|
    ensures (n, next) == Repeat(r, i)
  {
    if i >= |r| || r[i] != OPEN_REPEAT {
      return 1, i;
    }
    var j := i + 1;
    while j < |r| && r[j] != CLOSE_REPEAT
      invariant i + 1 <= j <= |r|
      invariant IndexFrom(r, i + 1, CLOSE_REPEAT) == IndexFrom(r, j, CLOSE_REPEAT)
    {
      j := j + 1;
    }
    if j >= |r| {
      return 1, i;
    }
    var v := ParseInt(AsText(r[i + 1..j]), 64);
    if v.None? || v.value < 1 {
      return 1, j + 1;
    }
    return v.value, j + 1;
  }

  method UnescapeRunes(r: Runes) returns (out: Runes)
    ensures out == Unescaped(r, 0, [])
  {
    out := [];
    var i := 0;
    while i < |r|
      invariant 0 <= i <= |r|
      invariant Unescaped(r, 0, []) == Unescaped(r, i, out)
    {
      if r[i] == BACKSLASH && i + 1 < |r| {
        i := i + 1;
      }
      out := out + [r[i]];
      i := i + 1;
    }
  }

  method ParseRegexPattern(r: Runes) returns (p: ParsedPattern)
    ensures p == Pattern(r, 0, [])
  {
    hide ClassRunes, Unescaped, Repeat, ClassEnd;
    var out: seq<Token> := [];
    var i := 0;
    while i < |r|
      invariant 0 <= i <= |r|
      invariant Pattern(r, 0, []) == Pattern(r, i, out)
      decreases |r| - i
    {
      if r[i] == OPEN_CLASS {
        var j := FindClassEnd(r, i + 1);
        if j >= |r| {
          return Rejected(UnterminatedClass);
        }
        var choices := ParseClass(r[i + 1..j]);
        if choices.None? {
          return Rejected(InvalidRange);
        }
        var rep, ni := ParseRepeat(r, j + 1);
        out := out + [Token(choices.value, [], rep)];
        i := ni;
      } else if r[i] == OPEN_GROUP {
        var j := i + 1;
        while j < |r| && r[j] != CLOSE_GROUP
          invariant i + 1 <= j <= |r|
          invariant IndexFrom(r, i + 1, CLOSE_GROUP) == IndexFrom(r, j, CLOSE_GROUP)
        {
          j := j + 1;
        }
        if j >= |r| {
          return Rejected(UnterminatedGroup);
        }
        var lit := UnescapeRunes(r[i + 1..j]);
        var rep, ni := ParseRepeat(r, j + 1);
        out := out + [Token([], lit, rep)];
        i := ni;
      } else if r[i] == BACKSLASH {
        if i + 1 >= |r| {
          return Rejected(DanglingEscape);
        }
        out := out + [Token([], [r[i + 1]], 1)];
        i := i + 2;
      } else {
        out := out + [Token([], [r[i]], 1)];
        i := i + 1;
      }
    }
    return Tokens(out);
  }

  method FindClassEnd(r: Runes, from: nat) returns (j: nat)
    requires from <= |r|
    ensures j == ClassEnd(r, from, false)
  {
    j := from;
    var escaped := false;
    while j < |r|
      invariant from <= j <= |r|
      invariant ClassEnd(r, from, false) == ClassEnd(r, j, escaped)
    {
      if !escaped && r[j] == CLOSE_CLASS {
        break;
      }
      escaped := !escaped && r[j] == BACKSLASH;
      if r[j] != BACKSLASH {
        escaped := false;
      }
      j := j + 1;
    }
  }

  // ----- How patterns are written -----

  /** A rune as it is, or after a backslash. */
  datatype Mark = Bare(c: nat) | Quoted(c: nat)

  /** A part of a class: one rune, or the runes between two. */
  datatype Item = One(x: Mark) | Span(x: Mark, y: Mark)

  /** A part of a pattern; a class and a group may carry a repeat count. */
  datatype Piece =
    | Class(items: seq<Item>, count: Option<nat>)
    | Group(marks: seq<Mark>, count: Option<nat>)
    | Letter(x: Mark)

  function Spell(marks: seq<Mark>): (r: Runes)
    ensures |r| >= |marks|
  {
    if marks == [] then []
    else (if marks[0].Bare? then [marks[0].c] else [BACKSLASH, marks[0].c]) + Spell(marks[1..])
  }

  function MarksOf(items: seq<Item>): seq<Mark> {
    if items == [] then []
    else (if items[0].One? then [items[0].x] else [items[0].x, Bare(DASH), items[0].y]) + MarksOf(items[1..])
  }

  function AsRunes(s: string): (r: Runes)
    ensures |r| == |s| && forall i :: 0 <= i < |r| ==> r[i] == s[i] as int
  {
    seq(|s|, i requires 0 <= i < |s| => s[i] as int)
  }

  function WriteCount(count: Option<nat>): Runes {
    if count.None? then [] else [OPEN_REPEAT] + AsRunes(FormatUint(count.value, 10)) + [CLOSE_REPEAT]
  }

  function Write(p: Piece): Runes {
    match p
    case Class(items, count) => [OPEN_CLASS] + Spell(MarksOf(items)) + [CLOSE_CLASS] + WriteCount(count)
    case Group(marks, count) => [OPEN_GROUP] + Spell(marks) + [CLOSE_GROUP] + WriteCount(count)
    case Letter(x) => Spell([x])
  }

  function WriteAll(pieces: seq<Piece>): Runes {
    if pieces == [] then [] else Write(pieces[0]) + WriteAll(pieces[1..])
  }

  // ----- What they mean -----

  function ItemRunes(item: Item): Option<Runes> {
    if item.One? then Some([item.x.c])
    else if item.y.c < item.x.c then None
    else Some(Range(item.x.c, item.y.c))
  }

  /** The runes of all items in order; None when some span runs backwards. */
  function ItemsRunes(items: seq<Item>): Option<Runes> {
    if items == [] then Some([])
    else if ItemRunes(items[0]).None? || ItemsRunes(items[1..]).None? then None
    else Some(ItemRunes(items[0]).value + ItemsRunes(items[1..]).value)
  }

  function Quotes(marks: seq<Mark>): (r: Runes)
    ensures |r| == |marks| && forall i :: 0 <= i < |r| ==> r[i] == marks[i].c
  {
    seq(|marks|, i requires 0 <= i < |marks| => marks[i].c)
  }

  function CountOf(count: Option<nat>): nat {
    if count.None? then 1 else count.value
  }

  function Meaning(p: Piece): Option<Token> {
    match p
    case Class(items, count) =>
      if ItemsRunes(items).None? then None else Some(Token(ItemsRunes(items).value, [], CountOf(count)))
    case Group(marks, count) => Some(Token([], Quotes(marks), CountOf(count)))
    case Letter(x) => Some(Token([], [x.c], 1))
  }

  function Meanings(pieces: seq<Piece>): Option<seq<Token>> {
    if pieces == [] then Some([])
    else if Meaning(pieces[0]).None? || Meanings(pieces[1..]).None? then None
    else Some([Meaning(pieces[0]).value] + Meanings(pieces[1..]).value)
  }

  // ----- Which writings stand for themselves -----

  predicate FitsClass(x: Mark) {
    x.Bare? ==> x.c != BACKSLASH && x.c != CLOSE_CLASS
  }

  predicate FitsGroup(x: Mark) {
    x.c != CLOSE_GROUP && (x.Bare? ==> x.c != BACKSLASH)
  }

  /** A bare dash after a single rune would start a span, unless it ends the class. */
  predicate FitItems(items: seq<Item>) {
    && (forall i :: 0 <= i < |items| ==> FitsClass(items[i].x) && (items[i].Span? ==> FitsClass(items[i].y)))
    && (forall i :: 0 <= i < |items| - 1 && items[i].One? && items[i + 1].x == Bare(DASH) ==>
          items[i + 1].One? && i + 2 == |items|)
  }

  predicate FitCount(count: Option<nat>) {
    count.Some? ==> 1 <= count.value <= MAX_INT64
  }

  predicate Fits(p: Piece) {
    match p
    case Class(items, count) => FitItems(items) && FitCount(count)
    case Group(marks, count) => (forall i :: 0 <= i < |marks| ==> FitsGroup(marks[i])) && FitCount(count)
    case Letter(x) => x.Bare? ==> x.c != OPEN_CLASS && x.c != OPEN_GROUP && x.c != BACKSLASH
  }

  /** The piece may be followed by an opening brace without taking it for a count. */
  predicate Uncounted(p: Piece) {
    !p.Letter? && p.count.None?
  }

  predicate FitAll(pieces: seq<Piece>) {
    && (forall i :: 0 <= i < |pieces| ==> Fits(pieces[i]))
    && (forall i :: 0 <= i < |pieces| - 1 && Uncounted(pieces[i]) ==> pieces[i + 1] != Letter(Bare(OPEN_REPEAT)))
  }

  // ----- The parser reads them so -----

  /** The runes `piece` stand in `r` at index `i`. */
  predicate At(r: Runes, i: nat, piece: Runes) {
    i + |piece| <= |r| && r[i..i + |piece|] == piece
  }

  lemma AtStart(r: Runes)
    ensures At(r, 0, r)
  {
    assert r[0..|r|] == r;
  }

  lemma AtSplit(r: Runes, i: nat, a: Runes, b: Runes)
    requires At(r, i, a + b)
    ensures At(r, i, a) && At(r, i + |a|, b)
  {
    assert r[i..i + |a|] == r[i..i + |a + b|][..|a|];
    assert r[i + |a|..i + |a| + |b|] == r[i..i + |a + b|][|a|..];
  }

  lemma SuffixSplit(r: Runes, i: nat, a: Runes, b: Runes)
    requires i <= |r| && r[i..] == a + b
    ensures At(r, i, a) && r[i + |a|..] == b
  {
    assert r[i..i + |a|] == r[i..][..|a|];
    assert r[i + |a|..] == r[i..][|a|..];
  }

  lemma AtFirst(r: Runes, i: nat, c: nat, b: Runes)
    requires At(r, i, [c] + b)
    ensures i < |r| && r[i] == c && At(r, i + 1, b)
  {
    AtSplit(r, i, [c], b);
    assert r[i..i + 1][0] == c;
  }

  function Width(x: Mark): nat {
    if x.Bare? then 1 else 2
  }

  lemma AtMark(r: Runes, i: nat, marks: seq<Mark>)
    requires marks != [] && At(r, i, Spell(marks))
    ensures var x := marks[0];
            && |Spell(marks)| == Width(x) + |Spell(marks[1..])| && i + Width(x) <= |r|
            && At(r, i + Width(x), Spell(marks[1..]))
            && if x.Bare? then r[i] == x.c else r[i] == BACKSLASH && r[i + 1] == x.c
  {
    hide Spell, At;
    SpellFirst(marks);
    var rest := Spell(marks[1..]);
    if marks[0].Bare? {
      AtFirst(r, i, marks[0].c, rest);
    } else {
      AtFirst(r, i, BACKSLASH, [marks[0].c] + rest);
      AtFirst(r, i + 1, marks[0].c, rest);
    }
  }

  lemma SpellFirst(marks: seq<Mark>)
    requires marks != []
    ensures Spell(marks) == if marks[0].Bare? then [marks[0].c] + Spell(marks[1..])
                            else [BACKSLASH] + ([marks[0].c] + Spell(marks[1..]))
  {
    assert [BACKSLASH, marks[0].c] + Spell(marks[1..]) == [BACKSLASH] + ([marks[0].c] + Spell(marks[1..]));
  }

  lemma {:induction false} ClassEndAfter(r: Runes, j: nat, marks: seq<Mark>)
    requires forall i :: 0 <= i < |marks| ==> FitsClass(marks[i])
    requires At(r, j, Spell(marks)) && j + |Spell(marks)| < |r| && r[j + |Spell(marks)|] == CLOSE_CLASS
    ensures ClassEnd(r, j, false) == j + |Spell(marks)|
    decreases |marks|
  {
    if marks == [] {
    } else {
      AtMark(r, j, marks);
      ClassEndAfter(r, j + Width(marks[0]), marks[1..]);
      assert marks[0].Quoted? ==> ClassEnd(r, j + 1, true) == ClassEnd(r, j + 2, false);
    }
  }

  lemma {:induction false} GroupEndAfter(r: Runes, j: nat, marks: seq<Mark>)
    requires forall i :: 0 <= i < |marks| ==> FitsGroup(marks[i])
    requires At(r, j, Spell(marks)) && j + |Spell(marks)| < |r| && r[j + |Spell(marks)|] == CLOSE_GROUP
    ensures IndexFrom(r, j, CLOSE_GROUP) == j + |Spell(marks)|
    decreases |marks|
  {
    if marks == [] {
    } else {
      AtMark(r, j, marks);
      GroupEndAfter(r, j + Width(marks[0]), marks[1..]);
      assert marks[0].Quoted? ==> IndexFrom(r, j + 1, CLOSE_GROUP) == IndexFrom(r, j + 2, CLOSE_GROUP);
    }
  }

  lemma {:induction false} UnescapedOf(r: Runes, i: nat, marks: seq<Mark>, out: Runes)
    requires forall k :: 0 <= k < |marks| ==> FitsGroup(marks[k])
    requires At(r, i, Spell(marks)) && i + |Spell(marks)| == |r|
    ensures Unescaped(r, i, out) == out + Quotes(marks)
    decreases |marks|
  {
    if marks == [] {
      assert out + Quotes(marks) == out;
    } else {
      AtMark(r, i, marks);
      UnescapedOf(r, i + Width(marks[0]), marks[1..], out + [marks[0].c]);
      assert out + [marks[0].c] + Quotes(marks[1..]) == out + Quotes(marks);
    }
  }

  lemma MarkRead(r: Runes, i: nat, x: Mark, rest: seq<Mark>)
    requires FitsClass(x) && At(r, i, Spell([x] + rest))
    ensures i < |r| && ReadClassRune(r, i) == (x.c, i + Width(x)) && At(r, i + Width(x), Spell(rest))
    ensures |Spell([x] + rest)| == Width(x) + |Spell(rest)|
  {
    assert ([x] + rest)[1..] == rest;
    AtMark(r, i, [x] + rest);
  }

  /** A rune that no dash follows, or only one at the very end, stands for itself. */
  lemma NoSpan(r: Runes, i: nat, items: seq<Item>)
    requires FitItems(items) && items != [] && items[0].One?
    requires At(r, i, Spell(MarksOf(items[1..]))) && i + |Spell(MarksOf(items[1..]))| == |r|
    ensures !(i < |r| - 1 && r[i] == DASH)
  {
    var rest := items[1..];
    if rest != [] {
      AtMark(r, i, MarksOf(rest));
      assert rest[0] == items[1];
      if rest[0].x == Bare(DASH) {
        assert rest == [One(Bare(DASH))];
        assert MarksOf(rest) == [Bare(DASH)] + MarksOf([]);
      }
    }
  }

  lemma FitRest(items: seq<Item>)
    requires FitItems(items) && items != []
    ensures FitItems(items[1..])
  {
    var rest := items[1..];
    assert forall i :: 0 <= i < |rest| ==> rest[i] == items[i + 1];
    forall i | 0 <= i < |rest| - 1 && rest[i].One? && rest[i + 1].x == Bare(DASH)
      ensures rest[i + 1].One? && i + 2 == |rest|
    {
      assert items[i + 1].One? && items[i + 2].x == Bare(DASH);
    }
  }

  /** A class means the runes of its items in order, and is refused exactly when some span runs backwards. */
  lemma {:induction false} ClassMeansItsItems(r: Runes, i: nat, items: seq<Item>, out: Runes)
    requires FitItems(items) && At(r, i, Spell(MarksOf(items))) && i + |Spell(MarksOf(items))| == |r|
    ensures ClassRunes(r, i, out) ==
            if ItemsRunes(items).None? then None else Some(out + ItemsRunes(items).value)
    decreases |items|
  {
    hide FitItems, At, Spell, ReadClassRune, Range;
    if items == [] {
      SpellNothing();
      assert out + [] == out;
    } else {
      var rest := items[1..];
      FitRest(items);
      FirstMarksFit(items);
      if items[0].One? {
        MarkRead(r, i, items[0].x, MarksOf(rest));
        NoSpan(r, i + Width(items[0].x), items);
        ClassMeansItsItems(r, i + Width(items[0].x), rest, out + [items[0].x.c]);
      } else {
        SpanRead(r, i, items[0], MarksOf(rest));
        var next := i + Width(items[0].x) + 1 + Width(items[0].y);
        if items[0].y.c >= items[0].x.c {
          ClassMeansItsItems(r, next, rest, out + Range(items[0].x.c, items[0].y.c));
        }
      }
      Regroup(out, items);
    }
  }

  lemma SpellNothing()
    ensures Spell([]) == [] && MarksOf([]) == []
  {
  }

  lemma FirstMarksFit(items: seq<Item>)
    requires FitItems(items) && items != []
    ensures FitsClass(items[0].x) && (items[0].Span? ==> FitsClass(items[0].y))
  {
  }

  lemma SpanRead(r: Runes, i: nat, item: Item, rest: seq<Mark>)
    requires item.Span? && FitsClass(item.x) && FitsClass(item.y)
    requires At(r, i, Spell([item.x, Bare(DASH), item.y] + rest))
    ensures var ni := i + Width(item.x);
            && i < |r| && ReadClassRune(r, i) == (item.x.c, ni)
            && ni < |r| - 1 && r[ni] == DASH
            && ReadClassRune(r, ni + 1) == (item.y.c, ni + 1 + Width(item.y))
            && At(r, ni + 1 + Width(item.y), Spell(rest))
            && |Spell([item.x, Bare(DASH), item.y] + rest)| == Width(item.x) + 1 + Width(item.y) + |Spell(rest)|
  {
    hide At, Spell;
    var ni := i + Width(item.x);
    assert [item.x, Bare(DASH), item.y] + rest == [item.x] + ([Bare(DASH)] + ([item.y] + rest));
    MarkRead(r, i, item.x, [Bare(DASH)] + ([item.y] + rest));
    MarkRead(r, ni, Bare(DASH), [item.y] + rest);
    MarkRead(r, ni + 1, item.y, rest);
  }

  lemma Regroup(out: Runes, items: seq<Item>)
    requires items != []
    ensures ItemRunes(items[0]).Some? && ItemsRunes(items[1..]).Some? ==>
              out + ItemRunes(items[0]).value + ItemsRunes(items[1..]).value == out + ItemsRunes(items).value
  {
    if ItemRunes(items[0]).Some? && ItemsRunes(items[1..]).Some? {
      var first, rest := ItemRunes(items[0]).value, ItemsRunes(items[1..]).value;
      assert ItemsRunes(items) == Some(first + rest);
      hide *;
      assert out + first + rest == out + (first + rest);
    }
  }

  lemma {:induction false} IndexFromSkips(r: Runes, j: nat, k: nat, c: nat)
    requires j <= k < |r| && r[k] == c && forall i :: j <= i < k ==> r[i] != c
    ensures IndexFrom(r, j, c) == k
    decreases k - j
  {
    if j == k {
    } else {
      IndexFromSkips(r, j + 1, k, c);
    }
  }

  lemma WrittenNumberReads(n: nat)
    requires 1 <= n <= MAX_INT64
    ensures var digits := AsRunes(FormatUint(n, 10));
            ParseInt(AsText(digits), 64) == Some(n) && CLOSE_REPEAT !in digits
  {
    var text := FormatUint(n, 10);
    assert text == FormatInt(n);
    FormatUintDigits(n, 10);
    forall k | 0 <= k < |text| ensures IsDecimal(text[k]) {
      assert text[k] in text;
    }
    assert AsText(AsRunes(text)) == text;
    Pow2Values();
    FormatIntRoundTrip(n, 64);
  }

  /** A written count is read back; where none is written, none may seem to follow. */
  lemma CountRead(r: Runes, i: nat, count: Option<nat>)
    requires FitCount(count) && At(r, i, WriteCount(count))
    requires count.None? ==> i == |r| || r[i] != OPEN_REPEAT
    ensures Repeat(r, i) == (CountOf(count), i + |WriteCount(count)|)
  {
    hide *;
    if count.Some? {
      WrittenCountRead(r, i, count.value);
    } else {
      AtInside(r, i, WriteCount(count));
      NoCountRead(r, i);
    }
  }

  lemma AtInside(r: Runes, i: nat, piece: Runes)
    requires At(r, i, piece)
    ensures i + |piece| <= |r|
  {
  }

  lemma NoCountRead(r: Runes, i: nat)
    requires i <= |r| && (i == |r| || r[i] != OPEN_REPEAT)
    ensures Repeat(r, i) == (CountOf(None), i + |WriteCount(None)|)
  {
  }

  lemma WrittenCountRead(r: Runes, i: nat, n: nat)
    requires FitCount(Some(n)) && At(r, i, WriteCount(Some(n)))
    ensures Repeat(r, i) == (CountOf(Some(n)), i + |WriteCount(Some(n))|)
  {
    hide At, FormatUint, IndexFrom, ParseInt, WriteCount, Repeat, AsText;
    var digits := AsRunes(FormatUint(n, 10));
    CountAsWritten(n);
    WrittenNumberReads(n);
    AtFirst(r, i, OPEN_REPEAT, digits + [CLOSE_REPEAT]);
    RepeatClose(r, i + 1, digits);
    RepeatIs(r, i, i + 1 + |digits|, n);
  }

  lemma CountAsWritten(n: nat)
    ensures WriteCount(Some(n)) == [OPEN_REPEAT] + (AsRunes(FormatUint(n, 10)) + [CLOSE_REPEAT])
    ensures |WriteCount(Some(n))| == |AsRunes(FormatUint(n, 10))| + 2
  {
    hide FormatUint;
  }

  lemma RepeatIs(r: Runes, i: nat, j: nat, n: nat)
    requires i < j < |r| && r[i] == OPEN_REPEAT && IndexFrom(r, i + 1, CLOSE_REPEAT) == j
    requires n >= 1 && ParseInt(AsText(r[i + 1..j]), 64) == Some(n)
    ensures Repeat(r, i) == (n, j + 1)
  {
    hide IndexFrom, ParseInt, AsText;
  }

  lemma RepeatClose(r: Runes, i: nat, digits: Runes)
    requires CLOSE_REPEAT !in digits && At(r, i, digits + [CLOSE_REPEAT])
    ensures var j := i + |digits|;
            j < |r| && IndexFrom(r, i, CLOSE_REPEAT) == j && r[i..j] == digits
  {
    AtSplit(r, i, digits, [CLOSE_REPEAT]);
    var j := i + |digits|;
    AtFirst(r, j, CLOSE_REPEAT, []);
    forall k | i <= k < j ensures r[k] != CLOSE_REPEAT {
      assert r[k] == r[i..j][k - i];
    }
    IndexFromSkips(r, i, j, CLOSE_REPEAT);
  }

  /** A bracketed body followed by a count, as both kinds are written. */
  lemma BracketPieces(r: Runes, i: nat, open: nat, body: Runes, close: nat, count: Option<nat>) returns (j: nat)
    requires FitCount(count) && At(r, i, [open] + body + [close] + WriteCount(count))
    requires count.None? ==> i + 2 + |body| == |r| || r[i + 2 + |body|] != OPEN_REPEAT
    ensures j == i + 1 + |body| < |r| && r[i] == open && r[i + 1..j] == body && r[j] == close
    ensures Repeat(r, j + 1) == (CountOf(count), i + 2 + |body| + |WriteCount(count)|)
  {
    hide Repeat, WriteCount;
    j := i + 1 + |body|;
    var rep := WriteCount(count);
    assert [open] + body + [close] + rep == [open] + (body + ([close] + rep));
    AtFirst(r, i, open, body + ([close] + rep));
    AtSplit(r, i + 1, body, [close] + rep);
    AtFirst(r, j, close, rep);
    CountRead(r, j + 1, count);
  }

  lemma MarksFit(items: seq<Item>)
    requires FitItems(items)
    ensures forall i :: 0 <= i < |MarksOf(items)| ==> FitsClass(MarksOf(items)[i])
    decreases |items|
  {
    if items == [] {
    } else {
      FitRest(items);
      MarksFit(items[1..]);
    }
  }

  /** What follows the piece is no brace it could take for its count. */
  predicate NoBrace(r: Runes, i: nat, p: Piece) {
    Uncounted(p) ==> i == |r| || (i < |r| && r[i] != OPEN_REPEAT)
  }

  lemma ClassStep(r: Runes, i: nat, p: Piece) returns (j: nat)
    requires p.Class? && Fits(p) && At(r, i, Write(p)) && NoBrace(r, i + |Write(p)|, p)
    ensures i < j < |r| && r[i] == OPEN_CLASS && ClassEnd(r, i + 1, false) == j
    ensures ClassRunes(r[i + 1..j], 0, []) == ItemsRunes(p.items)
    ensures Repeat(r, j + 1) == (CountOf(p.count), i + |Write(p)|)
  {
    hide Repeat, WriteCount, FitItems, FitCount, CountOf, ClassRunes, ClassEnd, ItemsRunes;
    hide Spell, MarksOf, At, FitsClass;
    var body := Spell(MarksOf(p.items));
    CountWidth(p.count);
    j := BracketPieces(r, i, OPEN_CLASS, body, CLOSE_CLASS, p.count);
    MarksFit(p.items);
    ClassEndAfter(r, i + 1, MarksOf(p.items));
    AtStart(body);
    ClassMeansItsItems(body, 0, p.items, []);
    assert ItemsRunes(p.items).Some? ==> [] + ItemsRunes(p.items).value == ItemsRunes(p.items).value;
  }

  lemma CountWidth(count: Option<nat>)
    ensures count.None? ==> WriteCount(count) == []
  {
  }

  lemma GroupStep(r: Runes, i: nat, p: Piece) returns (j: nat)
    requires p.Group? && Fits(p) && At(r, i, Write(p)) && NoBrace(r, i + |Write(p)|, p)
    ensures i < j < |r| && r[i] == OPEN_GROUP && IndexFrom(r, i + 1, CLOSE_GROUP) == j
    ensures Unescaped(r[i + 1..j], 0, []) == Quotes(p.marks)
    ensures Repeat(r, j + 1) == (CountOf(p.count), i + |Write(p)|)
  {
    hide Repeat, WriteCount, FitCount, CountOf, Unescaped, IndexFrom, Spell, At, FitsGroup;
    var body := Spell(p.marks);
    CountWidth(p.count);
    j := BracketPieces(r, i, OPEN_GROUP, body, CLOSE_GROUP, p.count);
    GroupEndAfter(r, i + 1, p.marks);
    AtStart(body);
    UnescapedOf(body, 0, p.marks, []);
    assert [] + Quotes(p.marks) == Quotes(p.marks);
  }

  lemma ClassUnfolds(r: Runes, i: nat, j: nat, choices: Option<Runes>, count: nat, next: nat, out: seq<Token>)
    requires i < j < |r| && r[i] == OPEN_CLASS && ClassEnd(r, i + 1, false) == j
    requires ClassRunes(r[i + 1..j], 0, []) == choices && Repeat(r, j + 1) == (count, next)
    ensures next <= |r|
    ensures Pattern(r, i, out) == if choices.None? then Rejected(InvalidRange)
                                  else Pattern(r, next, out + [Token(choices.value, [], count)])
  {
  }

  lemma GroupUnfolds(r: Runes, i: nat, j: nat, literal: Runes, count: nat, next: nat, out: seq<Token>)
    requires i < j < |r| && r[i] == OPEN_GROUP && IndexFrom(r, i + 1, CLOSE_GROUP) == j
    requires Unescaped(r[i + 1..j], 0, []) == literal && Repeat(r, j + 1) == (count, next)
    ensures next <= |r| && Pattern(r, i, out) == Pattern(r, next, out + [Token([], literal, count)])
  {
  }

  lemma LetterStep(r: Runes, i: nat, x: Mark, out: seq<Token>)
    requires Fits(Letter(x)) && At(r, i, Spell([x]))
    ensures i + |Spell([x])| <= |r|
    ensures Pattern(r, i, out) == Pattern(r, i + |Spell([x])|, out + [Token([], [x.c], 1)])
  {
    hide ClassRunes, ClassEnd, Repeat, Unescaped;
    AtMark(r, i, [x]);
    assert Spell([x][1..]) == [];
  }

  /** One piece is read as its meaning, and refused exactly when it has none. */
  lemma PieceStep(r: Runes, i: nat, p: Piece, out: seq<Token>)
    requires Fits(p) && At(r, i, Write(p)) && NoBrace(r, i + |Write(p)|, p)
    ensures i + |Write(p)| <= |r|
    ensures Pattern(r, i, out) == if Meaning(p).None? then Rejected(InvalidRange)
                                  else Pattern(r, i + |Write(p)|, out + [Meaning(p).value])
  {
    hide Pattern, Repeat, ClassRunes, ClassEnd, IndexFrom, Unescaped, Spell, ItemsRunes, FitItems;
    match p
    case Class(items, count) =>
      var j := ClassStep(r, i, p);
      ClassUnfolds(r, i, j, ItemsRunes(items), CountOf(count), i + |Write(p)|, out);
    case Group(marks, count) =>
      var j := GroupStep(r, i, p);
      GroupUnfolds(r, i, j, Quotes(marks), CountOf(count), i + |Write(p)|, out);
    case Letter(x) => LetterStep(r, i, x, out);
  }

  lemma StartsWithoutBrace(pieces: seq<Piece>)
    requires pieces != [] && Fits(pieces[0]) && pieces[0] != Letter(Bare(OPEN_REPEAT))
    ensures WriteAll(pieces) != [] && WriteAll(pieces)[0] != OPEN_REPEAT
  {
    assert pieces[0].Letter? ==> Spell([pieces[0].x]) != [];
  }

  lemma FitTail(pieces: seq<Piece>)
    requires FitAll(pieces) && pieces != []
    ensures Fits(pieces[0]) && FitAll(pieces[1..])
    ensures |pieces| > 1 && Uncounted(pieces[0]) ==>
              Fits(pieces[1]) && pieces[1] != Letter(Bare(OPEN_REPEAT))
  {
    hide Fits, Uncounted;
    var rest := pieces[1..];
    assert forall k :: 0 <= k < |rest| ==> rest[k] == pieces[k + 1];
    forall k | 0 <= k < |rest| - 1 && Uncounted(rest[k]) ensures rest[k + 1] != Letter(Bare(OPEN_REPEAT)) {
      assert Uncounted(pieces[k + 1]) && pieces[k + 2] == rest[k + 1];
    }
  }

  lemma NoBraceFollows(r: Runes, i: nat, pieces: seq<Piece>)
    requires FitAll(pieces) && pieces != [] && i <= |r| && r[i..] == WriteAll(pieces[1..])
    ensures NoBrace(r, i, pieces[0])
  {
    hide Fits, Write, FitAll;
    FitTail(pieces);
    if |pieces| > 1 && Uncounted(pieces[0]) {
      StartsWithoutBrace(pieces[1..]);
      assert r[i] == r[i..][0];
    }
  }

  lemma MeaningsFirst(out: seq<Token>, pieces: seq<Piece>)
    requires pieces != []
    ensures Meanings(pieces).None? <==> Meaning(pieces[0]).None? || Meanings(pieces[1..]).None?
    ensures Meanings(pieces).Some? ==>
              out + [Meaning(pieces[0]).value] + Meanings(pieces[1..]).value == out + Meanings(pieces).value
  {
  }

  /** What is written stands for itself: a pattern parses to the tokens its pieces mean, and is refused
      exactly when some span of a class runs backwards. */
  lemma {:induction false} PatternMeansItsPieces(r: Runes, i: nat, pieces: seq<Piece>, out: seq<Token>)
    requires FitAll(pieces) && i <= |r| && r[i..] == WriteAll(pieces)
    ensures Pattern(r, i, out) ==
            if Meanings(pieces).None? then Rejected(InvalidRange) else Tokens(out + Meanings(pieces).value)
    decreases |pieces|
  {
    hide *;
    if pieces == [] {
      NothingIsWritten(r, i, out);
    } else {
      var p, rest := pieces[0], pieces[1..];
      WriteAllFirst(pieces);
      SuffixSplit(r, i, Write(p), WriteAll(rest));
      FitTail(pieces);
      NoBraceFollows(r, i + |Write(p)|, pieces);
      PieceStep(r, i, p, out);
      MeaningsFirst(out, pieces);
      if Meaning(p).Some? {
        PatternMeansItsPieces(r, i + |Write(p)|, rest, out + [Meaning(p).value]);
      }
    }
  }

  lemma NothingIsWritten(r: Runes, i: nat, out: seq<Token>)
    requires i <= |r| && r[i..] == WriteAll([])
    ensures Pattern(r, i, out) == Tokens(out + []) && Meanings([]) == Some([])
  {
    assert out + [] == out;
  }

  lemma WriteAllFirst(pieces: seq<Piece>)
    requires pieces != []
    ensures WriteAll(pieces) == Write(pieces[0]) + WriteAll(pieces[1..])
  {
  }

  // ----- Every list of tokens can be written -----

  /** A token some pattern stands for: groups cannot hold ')', so such a literal must stand alone. */
  predicate Printable(t: Token) {
    && 1 <= t.repeat <= MAX_INT64
    && (t.choices == [] || t.literal == [])
    && (CLOSE_GROUP in t.literal ==> |t.literal| == 1 && t.repeat == 1)
  }

  function Quote(runes: Runes): (marks: seq<Mark>)
    ensures |marks| == |runes| && forall i :: 0 <= i < |runes| ==> marks[i] == Quoted(runes[i])
  {
    seq(|runes|, i requires 0 <= i < |runes| => Quoted(runes[i]))
  }

  function Ones(runes: Runes): (items: seq<Item>)
    ensures |items| == |runes| && forall i :: 0 <= i < |runes| ==> items[i] == One(Quoted(runes[i]))
  {
    seq(|runes|, i requires 0 <= i < |runes| => One(Quoted(runes[i])))
  }

  function PieceOf(t: Token): Piece
    requires Printable(t)
  {
    if t.literal == [] then Class(Ones(t.choices), Some(t.repeat))
    else if CLOSE_GROUP in t.literal then Letter(Quoted(CLOSE_GROUP))
    else Group(Quote(t.literal), Some(t.repeat))
  }

  function PiecesOf(tokens: seq<Token>): (pieces: seq<Piece>)
    requires forall i :: 0 <= i < |tokens| ==> Printable(tokens[i])
    ensures |pieces| == |tokens| && forall i :: 0 <= i < |tokens| ==> pieces[i] == PieceOf(tokens[i])
  {
    seq(|tokens|, i requires 0 <= i < |tokens| => PieceOf(tokens[i]))
  }

  lemma {:induction false} OnesMean(runes: Runes)
    ensures ItemsRunes(Ones(runes)) == Some(runes)
    decreases |runes|
  {
    if runes == [] {
    } else {
      assert Ones(runes)[1..] == Ones(runes[1..]);
      OnesMean(runes[1..]);
      assert [runes[0]] + runes[1..] == runes;
    }
  }

  lemma PieceOfMeans(t: Token)
    requires Printable(t)
    ensures Fits(PieceOf(t)) && !Uncounted(PieceOf(t)) && Meaning(PieceOf(t)) == Some(t)
  {
    if t.literal == [] {
      OnesMean(t.choices);
    } else if CLOSE_GROUP in t.literal {
      assert t.literal == [CLOSE_GROUP];
    } else {
      assert forall i :: 0 <= i < |t.literal| ==> t.literal[i] in t.literal;
      assert Quotes(Quote(t.literal)) == t.literal;
    }
  }

  lemma {:induction false} PiecesOfMean(tokens: seq<Token>)
    requires forall i :: 0 <= i < |tokens| ==> Printable(tokens[i])
    ensures Meanings(PiecesOf(tokens)) == Some(tokens)
    decreases |tokens|
  {
    hide Meaning, PieceOf, Printable;
    if tokens == [] {
    } else {
      assert PiecesOf(tokens)[1..] == PiecesOf(tokens[1..]);
      PieceOfMeans(tokens[0]);
      PiecesOfMean(tokens[1..]);
      assert [tokens[0]] + tokens[1..] == tokens;
    }
  }

  /** Parsing what is written for a list of tokens gives back the tokens. */
  lemma ParserInvertsPrinter(tokens: seq<Token>)
    requires forall i :: 0 <= i < |tokens| ==> Printable(tokens[i])
    ensures Pattern(WriteAll(PiecesOf(tokens)), 0, []) == Tokens(tokens)
  {
    hide Meaning, PieceOf, Pattern, Fits, Uncounted;
    var pieces := PiecesOf(tokens);
    forall i | 0 <= i < |tokens| ensures Fits(pieces[i]) && !Uncounted(pieces[i]) {
      PieceOfMeans(tokens[i]);
    }
    PiecesOfMean(tokens);
    assert WriteAll(pieces)[0..] == WriteAll(pieces);
    PatternMeansItsPieces(WriteAll(pieces), 0, pieces, []);
    assert [] + tokens == tokens;
  }

  // ----- What is refused, and what a bad count means -----

  lemma {:induction false} NoClassEnd(r: Runes, j: nat, marks: seq<Mark>)
    requires forall i :: 0 <= i < |marks| ==> FitsClass(marks[i])
    requires At(r, j, Spell(marks)) && j + |Spell(marks)| == |r|
    ensures ClassEnd(r, j, false) == |r|
    decreases |marks|
  {
    if marks == [] {
    } else {
      AtMark(r, j, marks);
      NoClassEnd(r, j + Width(marks[0]), marks[1..]);
      assert marks[0].Quoted? ==> ClassEnd(r, j + 1, true) == ClassEnd(r, j + 2, false);
    }
  }

  lemma {:induction false} NoGroupEnd(r: Runes, j: nat)
    requires j <= |r| && CLOSE_GROUP !in r[j..]
    ensures IndexFrom(r, j, CLOSE_GROUP) == |r|
    decreases |r| - j
  {
    if j == |r| {
    } else {
      assert r[j] == r[j..][0] && r[j + 1..] == r[j..][1..];
      NoGroupEnd(r, j + 1);
    }
  }

  /** A class or group that is not closed and a backslash at the end are refused, wherever they come. */
  lemma OpenEndsAreRefused(r: Runes, i: nat, out: seq<Token>, marks: seq<Mark>)
    requires i < |r|
    ensures r[i] == OPEN_CLASS && r[i + 1..] == Spell(marks)
            && (forall k :: 0 <= k < |marks| ==> FitsClass(marks[k])) ==>
              Pattern(r, i, out) == Rejected(UnterminatedClass)
    ensures r[i] == OPEN_GROUP && CLOSE_GROUP !in r[i + 1..] ==> Pattern(r, i, out) == Rejected(UnterminatedGroup)
    ensures r[i] == BACKSLASH && i + 1 == |r| ==> Pattern(r, i, out) == Rejected(DanglingEscape)
  {
    hide ClassRunes, Unescaped, Repeat, ClassEnd, IndexFrom, Spell;
    if r[i] == OPEN_CLASS && (forall k :: 0 <= k < |marks| ==> FitsClass(marks[k])) && r[i + 1..] == Spell(marks) {
      assert At(r, i + 1, Spell(marks));
      NoClassEnd(r, i + 1, marks);
    }
    if r[i] == OPEN_GROUP && CLOSE_GROUP !in r[i + 1..] {
      NoGroupEnd(r, i + 1);
    }
  }

  /** What stands between braces and is no positive number of 64 bits counts once; so does a brace that is
      never closed, and then it is a letter of its own. */
  lemma BadCountIsOne(r: Runes, i: nat, body: Runes)
    requires i < |r| && r[i] == OPEN_REPEAT && CLOSE_REPEAT !in body
    ensures At(r, i + 1, body + [CLOSE_REPEAT])
            && (ParseInt(AsText(body), 64).None? || ParseInt(AsText(body), 64).value < 1) ==>
              Repeat(r, i) == (1, i + 2 + |body|)
    ensures r[i + 1..] == body ==> Repeat(r, i) == (1, i)
  {
    hide ParseInt, AsText;
    if At(r, i + 1, body + [CLOSE_REPEAT]) {
      RepeatClose(r, i + 1, body);
    }
    if r[i + 1..] == body {
      NoRepeatEnd(r, i + 1);
    }
  }

  lemma {:induction false} NoRepeatEnd(r: Runes, j: nat)
    requires j <= |r| && CLOSE_REPEAT !in r[j..]
    ensures IndexFrom(r, j, CLOSE_REPEAT) == |r|
    decreases |r| - j
  {
    if j == |r| {
    } else {
      assert r[j] == r[j..][0] && r[j + 1..] == r[j..][1..];
      NoRepeatEnd(r, j + 1);
    }
  }

  /** The signs of the pattern language. */
  lemma KnownPattern()
    ensures AsText(WriteAll([Class([Span(Bare('a' as nat), Bare('c' as nat))], Some(2)),
                             Group([Bare('x' as nat)], None), Letter(Quoted('[' as nat)),
                             Letter(Bare('-' as nat))])) == "[a-c]{2}(x)\\[-"
    ensures Range('a' as nat, 'c' as nat) == ['a' as nat, 'b' as nat, 'c' as nat]
  {
    hide Write, FormatUint, Spell, MarksOf;
    var counted, group := Class([Span(Bare('a' as nat), Bare('c' as nat))], Some(2)), Group([Bare('x' as nat)], None);
    var quoted, bare := Letter(Quoted('[' as nat)), Letter(Bare('-' as nat));
    KnownCount();
    KnownLetters();
    assert [bare][1..] == [] && [quoted, bare][1..] == [bare] && [group, quoted, bare][1..] == [quoted, bare];
    assert [counted, group, quoted, bare][1..] == [group, quoted, bare];
    assert WriteAll([bare]) == ['-' as nat];
    assert WriteAll([quoted, bare]) == ['\\' as nat, '[' as nat, '-' as nat];
    assert WriteAll([group, quoted, bare]) == ['(' as nat, 'x' as nat, ')' as nat, '\\' as nat, '[' as nat, '-' as nat];
  }

  lemma KnownCount()
    ensures Write(Class([Span(Bare('a' as nat), Bare('c' as nat))], Some(2))) ==
            ['[' as nat, 'a' as nat, '-' as nat, 'c' as nat, ']' as nat, '{' as nat, '2' as nat, '}' as nat]
  {
    hide Spell, MarksOf;
    SpellsSpan('a' as nat, 'c' as nat);
    assert FormatUint(2, 10) == "2";
  }

  lemma KnownLetters()
    ensures Write(Group([Bare('x' as nat)], None)) == ['(' as nat, 'x' as nat, ')' as nat]
    ensures Write(Letter(Quoted('[' as nat))) == ['\\' as nat, '[' as nat]
    ensures Write(Letter(Bare('-' as nat))) == ['-' as nat]
  {
    SpellsOne('x' as nat);
    SpellsOne('[' as nat);
    SpellsOne('-' as nat);
  }

  lemma SpellsOne(c: nat)
    ensures Spell([Bare(c)]) == [c] && Spell([Quoted(c)]) == ['\\' as nat, c]
  {
    assert [Bare(c)][1..] == [] && [Quoted(c)][1..] == [];
  }

  lemma SpellsSpan(a: nat, b: nat)
    ensures Spell(MarksOf([Span(Bare(a), Bare(b))])) == [a, '-' as nat, b]
  {
    assert [Span(Bare(a), Bare(b))][1..] == [];
    assert MarksOf([Span(Bare(a), Bare(b))]) == [Bare(a), Bare('-' as nat), Bare(b)];
    assert [Bare(a), Bare('-' as nat), Bare(b)][1..] == [Bare('-' as nat), Bare(b)];
    assert [Bare('-' as nat), Bare(b)][1..] == [Bare(b)];
    SpellsOne(b);
  }
}
