/** The clean-up of a rendered query: runs of ampersands, left behind by parameters that were dropped,
    shrink to one. */
module Query {

  predicate StartsDouble(s: string) {
    |s| >= 2 && s[0] == '&' && s[1] == '&'
  }

  predicate HasDouble(s: string) {
    exists i :: 0 <= i < |s| - 1 && s[i] == '&' && s[i + 1] == '&'
  }

  /** strings.ReplaceAll(s, "&&", "&"): one pass over pairs that do not overlap. */
  function ReplaceDoubles(s: string): (r: string)
    ensures |r| <= |s|
    ensures r == "" <==> s == ""
    ensures s != "" ==> r[0] == s[0]
  {
    if s == "" then ""
    else if StartsDouble(s) then "&" + ReplaceDoubles(s[2..])
    else [s[0]] + ReplaceDoubles(s[1..])
  }

  /** Every run of ampersands as one, all other characters as they are. */
  function Collapsed(s: string): string {
    if s == "" then "" else if StartsDouble(s) then Collapsed(s[1..]) else [s[0]] + Collapsed(s[1..])
  }

  lemma {:induction false} APassCollapsesTheSame(s: string)
    ensures Collapsed(ReplaceDoubles(s)) == Collapsed(s)
    decreases |s|
  {
    if s != "" {
      var rest := if StartsDouble(s) then s[2..] else s[1..];
      var c := s[0];
      assert ReplaceDoubles(s) == [c] + ReplaceDoubles(rest);
      APassCollapsesTheSame(rest);
      CollapsedStart(c, rest);
      CollapsedStart(c, ReplaceDoubles(rest));
      if StartsDouble(s) {
        assert s[1..] == [c] + rest;
      } else {
        assert s == [c] + rest;
      }
    }
  }

  lemma CollapsedStart(c: char, rest: string)
    ensures Collapsed([c] + rest) ==
            if c == '&' && rest != "" && rest[0] == '&' then Collapsed(rest) else [c] + Collapsed(rest)
  {
    assert ([c] + rest)[1..] == rest;
  }

  lemma DoubleAhead(s: string)
    requires s != ""
    ensures HasDouble(s) <==> StartsDouble(s) || HasDouble(s[1..])
  {
    var t := s[1..];
    if HasDouble(t) {
      var i :| 0 <= i < |t| - 1 && t[i] == '&' && t[i + 1] == '&';
      assert s[i + 1] == '&' && s[i + 2] == '&';
    }
    if HasDouble(s) && !StartsDouble(s) {
      var i :| 0 <= i < |s| - 1 && s[i] == '&' && s[i + 1] == '&';
      assert t[i - 1] == '&' && t[i] == '&';
    }
    if StartsDouble(s) {
      assert s[0] == '&' && s[0 + 1] == '&';
    }
  }

  lemma {:induction false} APassShortens(s: string)
    requires HasDouble(s)
    ensures |ReplaceDoubles(s)| < |s|
    decreases |s|
  {
    DoubleAhead(s);
    if !StartsDouble(s) {
      APassShortens(s[1..]);
    }
  }

  lemma {:induction false} NothingToCollapse(s: string)
    requires !HasDouble(s)
    ensures Collapsed(s) == s
    decreases |s|
  {
    if s == "" {
    } else {
      DoubleAhead(s);
      NothingToCollapse(s[1..]);
    }
  }

  /** collapseAmpersands: passes until no two ampersands meet; each run has become one. */
  method CollapseAmpersands(given: string) returns (s: string)
    ensures s == Collapsed(given) && !HasDouble(s)
  {
    s := given;
    while HasDouble(s)
      invariant Collapsed(s) == Collapsed(given)
      decreases |s|
    {
      APassShortens(s);
      APassCollapsesTheSame(s);
      s := ReplaceDoubles(s);
    }
    NothingToCollapse(s);
  }

  /** The characters that are no ampersands, in order. */
  function Text(s: string): string {
    if s == "" then "" else (if s[0] == '&' then "" else [s[0]]) + Text(s[1..])
  }

  /** Only ampersands go. */
  lemma {:induction false} CollapsingKeepsTheText(s: string)
    ensures Text(Collapsed(s)) == Text(s)
    decreases |s|
  {
    if s == "" {
    } else {
      CollapsingKeepsTheText(s[1..]);
      if !StartsDouble(s) {
        assert ([s[0]] + Collapsed(s[1..]))[1..] == Collapsed(s[1..]);
      }
    }
  }
}
