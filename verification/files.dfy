/** Moving torrent files about on a file system any of whose calls may fail. A failed call leaves the
    files as they were, except that an interrupted copy leaves a part of the content. */
module Files {
  import opened Numerals

  datatype Meta = Meta(size: int, modTime: int)

  /** `locked` tells that the file cannot be opened for reading. It is no part of the fingerprint. */
  datatype File = File(content: string, meta: Meta, locked: bool)

  /** How a system call ends. */
  datatype Errno = Ok | NotExist | Exists | Failed

  // ----- Paths -----

  /** The position of the last `c` in `s`, -1 when there is none. */
  function LastIndex(s: string, c: char): (i: int)
    ensures -1 <= i < |s|
    ensures i >= 0 ==> s[i] == c
    ensures forall k :: i < k < |s| ==> s[k] != c
  {
    if s == "" then -1 else if s[|s| - 1] == c then |s| - 1 else LastIndex(s[..|s| - 1], c)
  }

  function Base(path: string): string {
    path[LastIndex(path, '/') + 1..]
  }

  function Join(dir: string, name: string): string {
    dir + "/" + name
  }

  function Ext(name: string): string {
    if LastIndex(name, '.') < 0 then "" else name[LastIndex(name, '.')..]
  }

  function Stem(name: string): string {
    if LastIndex(name, '.') < 0 then name else name[..LastIndex(name, '.')]
  }

  /** The path lies below the directory; both are clean and absolute. */
  predicate Below(dir: string, path: string) {
    dir != "" && |path| > |dir| + 1 && path[..|dir| + 1] == dir + "/"
  }

  /** The i-th name uniquePath tries when the plain one is taken. */
  function Candidate(dir: string, name: string, i: nat): string {
    Join(dir, Stem(name) + "." + FormatUint(i, 10) + Ext(name))
  }

  /** A path lies below a directory exactly when it goes on after the directory and a slash. */
  lemma BelowExactly(dir: string, path: string)
    ensures Below(dir, path) <==> dir != "" && exists rest :: rest != "" && path == dir + "/" + rest
  {
    if Below(dir, path) {
      var rest := path[|dir| + 1..];
      assert path == path[..|dir| + 1] + rest;
      assert rest != "" && path == dir + "/" + rest;
    }
  }

  /** What follows the last dot is the extension, the dot included, and what precedes it the stem. */
  lemma StemAndExt(stem: string, ext: string)
    requires '.' !in ext
    ensures Stem(stem + "." + ext) == stem && Ext(stem + "." + ext) == "." + ext
    ensures Stem(ext) == ext && Ext(ext) == ""
  {
    hide LastIndex;
    var s := stem + "." + ext;
    assert s[|stem|] == '.' && forall k :: |stem| < k < |s| ==> s[k] == ext[k - |stem| - 1];
    assert LastIndex(s, '.') == |stem|;
    assert s[|stem|..] == "." + ext && s[..|stem|] == stem;
    NoneIsLast(ext, '.');
  }

  lemma {:induction false} NoneIsLast(s: string, c: char)
    requires c !in s
    ensures LastIndex(s, c) == -1
    decreases |s|
  {
    if s == "" {
    } else {
      NoneIsLast(s[..|s| - 1], c);
    }
  }

  /** The names tried for `stem.ext` are `stem.1.ext`, `stem.2.ext` and so on, right in the directory. */
  lemma CandidateIs(dir: string, stem: string, ext: string, i: nat)
    requires '.' !in ext && '/' !in stem && '/' !in ext
    ensures var name := stem + "." + FormatUint(i, 10) + "." + ext;
            && Candidate(dir, stem + "." + ext, i) == dir + "/" + name
            && Base(Candidate(dir, stem + "." + ext, i)) == name && Ext(name) == "." + ext
  {
    hide Stem, Ext, Base;
    var numbered := stem + "." + FormatUint(i, 10);
    StemAndExt(stem, ext);
    StemAndExt(numbered, ext);
    NumberHasNoSlash(i);
    assert stem + "." + FormatUint(i, 10) + ("." + ext) == numbered + "." + ext;
    BaseOfJoin(dir, numbered + "." + ext);
  }

  lemma NumberHasNoSlash(i: nat)
    ensures '/' !in FormatUint(i, 10)
  {
    FormatUintDigits(i, 10);
  }

  lemma CandidatesDiffer(dir: string, name: string, i: nat, j: nat)
    requires i != j
    ensures Candidate(dir, name, i) != Candidate(dir, name, j)
  {
    hide FormatUint, Stem, Ext;
    var before := dir + "/" + Stem(name) + ".";
    assert Candidate(dir, name, i) == before + FormatUint(i, 10) + Ext(name);
    assert Candidate(dir, name, j) == before + FormatUint(j, 10) + Ext(name);
    if Candidate(dir, name, i) == Candidate(dir, name, j) {
      MiddlesAgree(before, FormatUint(i, 10), FormatUint(j, 10), Ext(name));
      FormatUintInjective(i, j);
    }
  }

  lemma MiddlesAgree(before: string, x: string, y: string, after: string)
    requires before + x + after == before + y + after
    ensures x == y
  {
    var a, b := before + x + after, before + y + after;
    assert a[|before|..|before| + |x|] == x;
    assert b[|before|..|before| + |y|] == y;
  }

  /** Finitely many names cannot take all of the first candidates. */
  lemma {:induction false} SomeCandidateIsFree(dir: string, name: string, taken: set<string>, from: nat)
    returns (i: nat)
    ensures from <= i <= from + |taken| && Candidate(dir, name, i) !in taken
    decreases |taken|
  {
    if Candidate(dir, name, from) !in taken {
      i := from;
    } else {
      i := SomeCandidateIsFree(dir, name, taken - {Candidate(dir, name, from)}, from + 1);
      CandidatesDiffer(dir, name, i, from);
    }
  }

  // ----- The search for a free name -----

  /** Stat says that the path does not exist. On the paths in `barred` it fails for another reason. */
  predicate IsFree(files: map<string, File>, barred: string -> bool, p: string) {
    p !in files && !barred(p)
  }

  /** The numbered names from the i-th on, as long as stats may be made. */
  function SearchFrom(files: map<string, File>, barred: string -> bool, dir: string, name: string,
                      i: nat, stats: nat): (path: Option<string>)
    ensures path.Some? ==> IsFree(files, barred, path.value)
    decreases stats
  {
    if stats == 0 then None
    else if IsFree(files, barred, Candidate(dir, name, i)) then Some(Candidate(dir, name, i))
    else SearchFrom(files, barred, dir, name, i + 1, stats - 1)
  }

  /** uniquePath, stopped after that many stats; None when it is still searching then. */
  function Search(files: map<string, File>, barred: string -> bool, dir: string, name: string,
                  stats: nat): (path: Option<string>)
    ensures path.Some? ==> IsFree(files, barred, path.value)
  {
    if stats == 0 then None
    else if IsFree(files, barred, Join(dir, name)) then Some(Join(dir, name))
    else SearchFrom(files, barred, dir, name, 1, stats - 1)
  }

  ghost predicate SearchEnds(files: map<string, File>, barred: string -> bool, dir: string, name: string) {
    exists stats :: Search(files, barred, dir, name, stats).Some?
  }

  ghost predicate FreeAmong(files: map<string, File>, barred: string -> bool, dir: string, name: string,
                            i: nat, n: nat) {
    exists j :: i <= j < i + n && IsFree(files, barred, Candidate(dir, name, j))
  }

  lemma {:induction false} SearchFromEnds(files: map<string, File>, barred: string -> bool, dir: string,
                                          name: string, i: nat, stats: nat)
    ensures SearchFrom(files, barred, dir, name, i, stats).Some? <==>
              FreeAmong(files, barred, dir, name, i, stats)
    decreases stats
  {
    if stats == 0 {
    } else {
      SearchFromEnds(files, barred, dir, name, i + 1, stats - 1);
      if FreeAmong(files, barred, dir, name, i + 1, stats - 1) {
        var j :| i + 1 <= j < i + stats && IsFree(files, barred, Candidate(dir, name, j));
      }
    }
  }

  /** The search ends exactly when the plain name or some numbered one is free; otherwise no number of
      stats is enough. */
  lemma SearchEndsExactly(files: map<string, File>, barred: string -> bool, dir: string, name: string)
    ensures SearchEnds(files, barred, dir, name) <==>
              IsFree(files, barred, Join(dir, name))
              || exists i :: i >= 1 && IsFree(files, barred, Candidate(dir, name, i))
  {
    hide IsFree;
    forall stats: nat | Search(files, barred, dir, name, stats).Some?
      ensures IsFree(files, barred, Join(dir, name))
              || exists i :: i >= 1 && IsFree(files, barred, Candidate(dir, name, i))
    {
      SearchFromEnds(files, barred, dir, name, 1, stats - 1);
    }
    if IsFree(files, barred, Join(dir, name)) {
      assert Search(files, barred, dir, name, 1).Some?;
    } else if i :| i >= 1 && IsFree(files, barred, Candidate(dir, name, i)) {
      assert FreeAmong(files, barred, dir, name, 1, i);
      SearchFromEnds(files, barred, dir, name, 1, i);
      assert Search(files, barred, dir, name, i + 1).Some?;
    }
  }

  /** Where the first names can be examined, one stat more than there are files and a plain name suffice. */
  lemma SearchEndsSoon(files: map<string, File>, barred: string -> bool, dir: string, name: string, stats: nat)
    requires forall i :: 1 <= i <= |files| + 1 ==> !barred(Candidate(dir, name, i))
    requires stats >= |files| + 2
    ensures Search(files, barred, dir, name, stats).Some?
  {
    var i := SomeCandidateIsFree(dir, name, files.Keys, 1);
    assert IsFree(files, barred, Candidate(dir, name, i));
    assert FreeAmong(files, barred, dir, name, 1, stats - 1);
    SearchFromEnds(files, barred, dir, name, 1, stats - 1);
  }

  lemma {:induction false} MoreStatsFrom(files: map<string, File>, barred: string -> bool, dir: string,
                                         name: string, i: nat, stats: nat, more: nat)
    requires SearchFrom(files, barred, dir, name, i, stats).Some? && stats <= more
    ensures SearchFrom(files, barred, dir, name, i, more) == SearchFrom(files, barred, dir, name, i, stats)
    decreases stats
  {
    if IsFree(files, barred, Candidate(dir, name, i)) {
    } else {
      MoreStatsFrom(files, barred, dir, name, i + 1, stats - 1, more - 1);
    }
  }

  /** A search that has ended finds the same name however many stats it might have made. */
  lemma FoundOnce(files: map<string, File>, barred: string -> bool, dir: string, name: string, n: nat, m: nat)
    requires Search(files, barred, dir, name, n).Some? && Search(files, barred, dir, name, m).Some?
    ensures Search(files, barred, dir, name, n) == Search(files, barred, dir, name, m)
  {
    if IsFree(files, barred, Join(dir, name)) {
    } else if n <= m {
      MoreStatsFrom(files, barred, dir, name, 1, n - 1, m - 1);
    } else {
      MoreStatsFrom(files, barred, dir, name, 1, m - 1, n - 1);
    }
  }

  lemma {:induction false} FromIsNumbered(files: map<string, File>, barred: string -> bool, dir: string,
                                          name: string, i: nat, stats: nat) returns (j: nat)
    requires SearchFrom(files, barred, dir, name, i, stats).Some?
    ensures i <= j < i + stats && SearchFrom(files, barred, dir, name, i, stats) == Some(Candidate(dir, name, j))
    decreases stats
  {
    if IsFree(files, barred, Candidate(dir, name, i)) {
      j := i;
    } else {
      j := FromIsNumbered(files, barred, dir, name, i + 1, stats - 1);
    }
  }

  lemma {:induction false} FromIsFirst(files: map<string, File>, barred: string -> bool, dir: string,
                                       name: string, i: nat, stats: nat, j: nat)
    requires SearchFrom(files, barred, dir, name, i, stats) == Some(Candidate(dir, name, j)) && j >= i
    ensures forall k :: i <= k < j ==> !IsFree(files, barred, Candidate(dir, name, k))
    decreases stats
  {
    hide Candidate;
    if IsFree(files, barred, Candidate(dir, name, i)) {
      if j != i {
        CandidatesDiffer(dir, name, i, j);
      }
    } else if j > i {
      FromIsFirst(files, barred, dir, name, i + 1, stats - 1, j);
    }
  }

  /** A search that ends with a numbered name has found the plain one and all smaller numbers taken or barred. */
  lemma FoundIsFirst(files: map<string, File>, barred: string -> bool, dir: string, name: string, stats: nat, j: nat)
    requires Search(files, barred, dir, name, stats) == Some(Candidate(dir, name, j)) && j >= 1
    requires Candidate(dir, name, j) != Join(dir, name)
    ensures !IsFree(files, barred, Join(dir, name))
    ensures forall k :: 1 <= k < j ==> !IsFree(files, barred, Candidate(dir, name, k))
  {
    hide Candidate;
    FromIsFirst(files, barred, dir, name, 1, stats - 1, j);
  }

  /** The name the search ends with, if it ends. */
  ghost function FirstFree(files: map<string, File>, barred: string -> bool, dir: string, name: string): string {
    if SearchEnds(files, barred, dir, name) then
      var stats :| Search(files, barred, dir, name, stats).Some?;
      Search(files, barred, dir, name, stats).value
    else ""
  }

  lemma FoundFirst(files: map<string, File>, barred: string -> bool, dir: string, name: string, stats: nat)
    requires Search(files, barred, dir, name, stats).Some?
    ensures Search(files, barred, dir, name, stats) == Some(FirstFree(files, barred, dir, name))
  {
    hide Search;
    var other :| Search(files, barred, dir, name, other).Some?
                 && FirstFree(files, barred, dir, name) == Search(files, barred, dir, name, other).value;
    FoundOnce(files, barred, dir, name, stats, other);
  }

  // ----- Where the search never ends -----

  /** A file system that fails to examine exactly the names longer than its limit. */
  ghost predicate LimitsNames(barred: string -> bool, limit: nat) {
    forall p :: barred(p) <==> |Base(p)| > limit
  }

  lemma BaseOfJoin(dir: string, name: string)
    requires '/' !in name
    ensures Base(Join(dir, name)) == name
  {
    var s := Join(dir, name);
    assert s[|dir|] == '/' && forall k :: |dir| < k < |s| ==> s[k] == name[k - |dir| - 1];
    assert LastIndex(s, '/') == |dir|;
  }

  /** A numbered name is longer than the plain one by a dot and the digits. */
  lemma CandidateLength(dir: string, name: string, i: nat)
    requires '/' !in name
    ensures |Base(Candidate(dir, name, i))| == |name| + 1 + |FormatUint(i, 10)|
  {
    FormatUintDigits(i, 10);
    assert name == Stem(name) + Ext(name);
    BaseOfJoin(dir, Stem(name) + "." + FormatUint(i, 10) + Ext(name));
  }

  lemma {:induction false} DigitsGrow(i: nat, j: nat)
    requires i <= j
    ensures |FormatUint(i, 10)| <= |FormatUint(j, 10)|
    decreases i
  {
    if i < 10 {
    } else {
      DigitsGrow(i / 10, j / 10);
    }
  }

  /** Under a name limit, whether the search ends shows on the first names, one more than there are files. */
  lemma NameLimitDecides(files: map<string, File>, barred: string -> bool, limit: nat, dir: string, name: string)
    requires LimitsNames(barred, limit) && '/' !in name
    ensures SearchEnds(files, barred, dir, name) <==>
              (|name| <= limit && Join(dir, name) !in files)
              || exists i :: 1 <= i <= |files| + 1 && |name| + 1 + |FormatUint(i, 10)| <= limit
                             && Candidate(dir, name, i) !in files
  {
    SearchEndsExactly(files, barred, dir, name);
    BaseOfJoin(dir, name);
    forall i: nat ensures barred(Candidate(dir, name, i)) <==> |name| + 1 + |FormatUint(i, 10)| > limit {
      CandidateLength(dir, name, i);
    }
    if i :| i >= 1 && IsFree(files, barred, Candidate(dir, name, i)) {
      var k := SomeCandidateIsFree(dir, name, files.Keys, 1);
      if k <= i {
        DigitsGrow(k, i);
      }
      var first := if k <= i then k else i;
      assert 1 <= first <= |files| + 1 && |name| + 1 + |FormatUint(first, 10)| <= limit
             && Candidate(dir, name, first) !in files;
    }
  }

  /** A taken name at the limit leaves no room for a number, and the search has no end. */
  lemma TakenNameAtTheLimit(files: map<string, File>, barred: string -> bool, limit: nat, dir: string, name: string,
                            stats: nat)
    requires LimitsNames(barred, limit) && '/' !in name
    requires Join(dir, name) in files && limit <= |name| + 1
    ensures Search(files, barred, dir, name, stats).None?
  {
    NameLimitDecides(files, barred, limit, dir, name);
    assert !SearchEnds(files, barred, dir, name);
  }

  /** Nor has it one in a directory without search permission. */
  lemma UnsearchableDirectory(files: map<string, File>, barred: string -> bool, dir: string, name: string,
                              stats: nat)
    requires dir != "" && name != "" && forall p :: Below(dir, p) ==> barred(p)
    ensures Search(files, barred, dir, name, stats).None?
  {
    assert Below(dir, Join(dir, name));
    forall i: nat ensures barred(Candidate(dir, name, i)) {
      assert Below(dir, Candidate(dir, name, i));
    }
    SearchEndsExactly(files, barred, dir, name);
    assert !SearchEnds(files, barred, dir, name);
  }

  // ----- What a transfer keeps -----

  /** The content of `src` is at `src` or `dst`, and no other file has changed or appeared. */
  ghost predicate Keeps(before: map<string, File>, src: string, dst: string, now: map<string, File>)
    requires src in before
  {
    && ((src in now && now[src] == before[src]) || (dst in now && now[dst].content == before[src].content))
    && (forall p :: p in before && p != src ==> p in now && now[p] == before[p])
    && (forall p :: p in now ==> p in before || p == dst)
  }

  // ----- Which calls of a move fail -----

  /** Opening, creating, writing and closing, as calls `k` to `k + 3`, go well, and the source is not locked. */
  predicate CopyDone(locked: bool, fails: nat -> bool, k: nat) {
    !locked && !fails(k) && !fails(k + 1) && !fails(k + 2) && !fails(k + 3)
  }

  /** A failed copy stays: the write failed and then its removal, or else the close, which comes last. */
  predicate CopyStays(locked: bool, fails: nat -> bool, k: nat) {
    !locked && !fails(k) && !fails(k + 1) && fails(k + 3)
  }

  /** A move whose first call is the k-th goes well: by a link, or else by a copy, and the old file goes. */
  predicate MoveDone(locked: bool, fails: nat -> bool, k: nat) {
    if !fails(k) then !fails(k + 1) else CopyDone(locked, fails, k + 1) && !fails(k + 5)
  }

  /** A failed move leaves a copy: that of a failed copying, or one whose removal failed like the old file's. */
  predicate MoveLeavesCopy(locked: bool, fails: nat -> bool, k: nat) {
    if !fails(k) then fails(k + 1) && fails(k + 2)
    else CopyStays(locked, fails, k + 1) || (CopyDone(locked, fails, k + 1) && fails(k + 5) && fails(k + 6))
  }

  lemma DoneOrStays(locked: bool, fails: nat -> bool, k: nat)
    ensures !(CopyDone(locked, fails, k) && CopyStays(locked, fails, k))
  {
  }

  /** A move is the making of the second name, by its first call or the four after, and then the removals. */
  lemma MoveByParts(locked: bool, fails: nat -> bool, k: nat)
    ensures var made, next := !fails(k) || CopyDone(locked, fails, k + 1), k + if fails(k) then 5 else 1;
            && (MoveDone(locked, fails, k) <==> made && !fails(next))
            && (MoveLeavesCopy(locked, fails, k) <==>
                  if made then fails(next) && fails(next + 1) else CopyStays(locked, fails, k + 1))
  {
  }

  /** Which failures leave a copy: the close of the copy does, and every removal that fails together with its
      roll-back; a failed write that is cleaned up, or a roll-back that works, does not. */
  lemma WhichFailuresLeaveACopy(fails: nat -> bool, k: nat)
    ensures !fails(k) && !fails(k + 2) ==> !MoveLeavesCopy(false, fails, k)
    ensures fails(k) && !fails(k + 4) && !fails(k + 6) ==> !MoveLeavesCopy(false, fails, k)
    ensures fails(k) && !fails(k + 1) && !fails(k + 2) && !fails(k + 3) && fails(k + 4) ==>
              MoveLeavesCopy(false, fails, k)
    ensures !fails(k) && fails(k + 1) && fails(k + 2) ==> MoveLeavesCopy(false, fails, k)
    ensures fails(k) ==> !MoveLeavesCopy(true, fails, k) && !MoveDone(true, fails, k)
    ensures (forall n :: k <= n <= k + 5 ==> !fails(n)) ==> MoveDone(true, fails, k) && MoveDone(false, fails, k)
    ensures MoveDone(false, fails, k) ==> !MoveLeavesCopy(false, fails, k)
  {
  }

  /** No link and a failed close: the copy stays beside the source, although every removal would succeed. */
  lemma FailedCloseLeavesACopy()
    ensures MoveLeavesCopy(false, k => k == 0 || k == 4, 0) && !MoveDone(false, k => k == 0 || k == 4, 0)
  {
  }

  /** `calls` counts the calls that open, link, create, write, close or remove a file; `fails` is the
      schedule that says which of them fail where the files alone would let them succeed. */
  class FileSystem {
    var files: map<string, File>
    var calls: nat
    const fails: nat -> bool
    /** Stat and the calls that make a name fail on these paths, so that no stat says they do not exist. */
    const barred: string -> bool
    /** No call fails but the opening of a locked file, and every file there is can be examined. */
    const reliable: bool
    /** Every state the files were in, the latest last. */
    ghost var trace: seq<map<string, File>>

    ghost predicate Valid()
      reads this`files, this`trace
    {
      && |trace| > 0 && trace[|trace| - 1] == files
      && (reliable ==> (forall k :: !fails(k)) && forall p :: p in files ==> !barred(p))
    }

    constructor (files: map<string, File>, barred: string -> bool, fails: nat -> bool, reliable: bool)
      requires reliable ==> (forall k :: !fails(k)) && forall p :: p in files ==> !barred(p)
      ensures Valid() && this.files == files && this.calls == 0
      ensures this.barred == barred && this.fails == fails && this.reliable == reliable
    {
      this.files, this.calls, trace := files, 0, [files];
      this.barred, this.fails, this.reliable := barred, fails, reliable;
    }

    lemma AllGoesWell(k: nat)
      requires forall n :: !fails(n)
      ensures forall locked :: MoveDone(locked, fails, k)
    {
    }

    twostate predicate Recorded()
      reads this
    {
      Valid() && |old(trace)| <= |trace| && trace[..|old(trace)|] == old(trace)
    }

    /** Every state since the old one keeps the content of `src`. */
    twostate predicate KeptAllAlong(src: string, dst: string)
      requires src in old(files)
      reads this
    {
      forall i :: |old(trace)| <= i < |trace| ==> Keeps(old(files), src, dst, trace[i])
    }

    /** Takes one call from the schedule. */
    method Fails() returns (f: bool)
      modifies this`calls
      ensures f == fails(old(calls)) && calls == old(calls) + 1
    {
      f := fails(calls);
      calls := calls + 1;
    }

    /** Someone locks or unlocks a file; its size and modification time stay. */
    method Chmod(p: string, locked: bool)
      requires Valid() && p in files
      modifies this`files, this`trace
      ensures files == old(files)[p := old(files)[p].(locked := locked)] && trace == old(trace) + [files] && Valid()
    {
      files := files[p := files[p].(locked := locked)];
      trace := trace + [files];
    }

    method Link(src: string, dst: string) returns (e: Errno)
      requires Valid()
      modifies this
      ensures e == if src !in old(files) then NotExist else if dst in old(files) then Exists
                   else if fails(old(calls)) || barred(dst) then Failed else Ok
      ensures files == if e.Ok? then old(files)[dst := old(files)[src]] else old(files)
      ensures trace == if e.Ok? then old(trace) + [files] else old(trace)
      ensures Valid() && calls == old(calls) + 1
    {
      var f := Fails();
      if src !in files {
        return NotExist;
      }
      if dst in files {
        return Exists;
      }
      if f || barred(dst) {
        return Failed;
      }
      files := files[dst := files[src]];
      trace := trace + [files];
      e := Ok;
    }

    method Remove(p: string) returns (e: Errno)
      requires Valid()
      modifies this
      ensures e == if p !in old(files) then NotExist else if fails(old(calls)) then Failed else Ok
      ensures files == if e.Ok? then old(files) - {p} else old(files)
      ensures trace == if e.Ok? then old(trace) + [files] else old(trace)
      ensures Valid() && calls == old(calls) + 1
    {
      var f := Fails();
      if p !in files {
        return NotExist;
      }
      if f {
        return Failed;
      }
      files := files - {p};
      trace := trace + [files];
      e := Ok;
    }

    method Open(p: string) returns (e: Errno, content: string)
      modifies this`calls
      ensures e == if p !in files then NotExist else if fails(old(calls)) || files[p].locked then Failed else Ok
      ensures e.Ok? ==> content == files[p].content
      ensures calls == old(calls) + 1
    {
      var f := Fails();
      if p !in files {
        return NotExist, "";
      }
      if f || files[p].locked {
        return Failed, "";
      }
      return Ok, files[p].content;
    }

    /** Opens a new file for writing, with O_CREATE and O_EXCL. */
    method Create(p: string) returns (e: Errno)
      requires Valid()
      modifies this
      ensures e == if p in old(files) then Exists else if fails(old(calls)) || barred(p) then Failed else Ok
      ensures if e.Ok? then p in files && files == old(files)[p := files[p]] else files == old(files)
      ensures trace == if e.Ok? then old(trace) + [files] else old(trace)
      ensures Valid() && calls == old(calls) + 1
    {
      var f := Fails();
      if p in files {
        return Exists;
      }
      if f || barred(p) {
        return Failed;
      }
      var modTime: int := *;
      files := files[p := File("", Meta(0, modTime), false)];
      trace := trace + [files];
      e := Ok;
    }

    /** Writes `content` to the new file; a failure leaves a part of it. */
    method Write(p: string, content: string) returns (e: Errno)
      requires Valid() && p in files
      modifies this
      ensures e == if fails(old(calls)) then Failed else Ok
      ensures p in files && files == old(files)[p := files[p]] && trace == old(trace) + [files]
      ensures e.Ok? ==> files[p].content == content
      ensures Valid() && calls == old(calls) + 1
    {
      var f := Fails();
      var written: int := *;
      var modTime: int := *;
      var part := if f && 0 <= written <= |content| then content[..written] else content;
      files := files[p := File(part, Meta(|part|, modTime), false)];
      trace := trace + [files];
      e := if f then Failed else Ok;
    }

    method Close() returns (e: Errno)
      modifies this`calls
      ensures e == if fails(old(calls)) then Failed else Ok
      ensures calls == old(calls) + 1
    {
      var f := Fails();
      e := if f then Failed else Ok;
    }

    method MkdirAll(dir: string) returns (made: bool)
      ensures reliable ==> made
    {
      made := *;
      made := made || reliable;
    }

    method OpenDir(dir: string) returns (e: Errno)
      ensures reliable ==> e.Ok?
    {
      var failed: bool, absent: bool := *, *;
      e := if !failed || reliable then Ok else if absent then NotExist else Failed;
    }

    method StatMeta(p: string) returns (meta: Option<Meta>)
      ensures meta.Some? ==> p in files && meta.value == files[p].meta
      ensures reliable && p in files && !barred(p) ==> meta.Some?
    {
      var failed: bool := *;
      if p !in files || barred(p) || (failed && !reliable) {
        return None;
      }
      meta := Some(files[p].meta);
    }

    /** The first free name, unless that many stats do not reach it. */
    method UniquePath(dir: string, name: string, stats: nat) returns (path: Option<string>)
      ensures path == Search(files, barred, dir, name, stats)
    {
      if stats == 0 {
        return None;
      }
      if IsFree(files, barred, Join(dir, name)) {
        return Some(Join(dir, name));
      }
      var i: nat, left: nat := 1, stats - 1;
      while left > 0
        invariant Search(files, barred, dir, name, stats) == SearchFrom(files, barred, dir, name, i, left)
      {
        var candidate := Candidate(dir, name, i);
        if IsFree(files, barred, candidate) {
          return Some(candidate);
        }
        i, left := i + 1, left - 1;
      }
      path := None;
    }

    method CopyFile(src: string, dst: string) returns (e: Errno)
      requires Valid()
      modifies this
      ensures Recorded() && (src in old(files) ==> KeptAllAlong(src, dst))
      ensures e.Ok? ==> src in old(files) && dst !in old(files) && dst in files
                        && files[dst].content == old(files)[src].content
      ensures files - {dst} == old(files) - {dst}
      ensures dst in old(files) ==> !e.Ok? && files == old(files)
      ensures e.Exists? ==> dst in old(files)
      ensures src in old(files) && dst !in old(files) && !barred(dst) ==>
                && (e.Ok? <==> CopyDone(old(files)[src].locked, fails, old(calls)))
                && (e.Ok? ==> calls == old(calls) + 4)
                && (!e.Ok? ==> (dst in files <==> CopyStays(old(files)[src].locked, fails, old(calls))))
    {
      hide Keeps;
      var found, content := Open(src);
      if !found.Ok? {
        return found;
      }
      ghost var before := files;
      var created := Create(dst);
      if !created.Ok? {
        return created;
      }
      NewKeeps(before, src, dst, files[dst]);
      var written := Write(dst, content);
      assert files == before[dst := files[dst]];
      NewKeeps(before, src, dst, files[dst]);
      if !written.Ok? {
        var cleaned := Remove(dst);
        return written;
      }
      e := Close();
    }

    /** The end of a move once `dst` holds the content: `src` goes, or else `dst` goes again. */
    method FinishMove(src: string, dst: string, ghost before: map<string, File>) returns (e: Errno)
      requires Valid() && src in before && dst !in before && dst in files && files - {dst} == before
      requires files[dst].content == before[src].content
      modifies this
      ensures Recorded() && forall i :: |old(trace)| <= i < |trace| ==> Keeps(before, src, dst, trace[i])
      ensures e.Ok? ==> dst in files && files[dst].content == before[src].content && files - {dst} == before - {src}
      ensures !e.Ok? ==> files - {dst} == before
      ensures e.Ok? <==> !fails(old(calls))
      ensures e.Ok? ==> files == old(files) - {src}
      ensures !e.Ok? ==> !e.Exists? && (dst in files <==> fails(old(calls) + 1))
    {
      SourceRemoved(before, files, src, dst);
      e := Remove(src);
      if !e.Ok? {
        var cleaned := Remove(dst);
      }
    }

    /** The move where no link could be made. */
    method MoveByCopy(src: string, dst: string) returns (e: Errno)
      requires Valid()
      modifies this
      ensures Recorded() && (src in old(files) ==> KeptAllAlong(src, dst))
      ensures e.Ok? ==> src in old(files) && dst !in old(files) && dst in files
                        && files[dst].content == old(files)[src].content
                        && files - {dst} == old(files) - {src}
      ensures !e.Ok? ==> files - {dst} == old(files) - {dst}
      ensures dst in old(files) ==> !e.Ok? && files == old(files)
      ensures e.Exists? ==> dst in old(files)
      ensures src in old(files) && dst !in old(files) && !barred(dst) ==>
                var locked := old(files)[src].locked;
                && (e.Ok? <==> CopyDone(locked, fails, old(calls)) && !fails(old(calls) + 4))
                && (!e.Ok? && dst in files <==>
                      CopyStays(locked, fails, old(calls))
                      || (CopyDone(locked, fails, old(calls)) && fails(old(calls) + 4) && fails(old(calls) + 5)))
    {
      hide Keeps, CopyDone, CopyStays;
      if src in files {
        DoneOrStays(files[src].locked, fails, calls);
      }
      e := CopyFile(src, dst);
      if !e.Ok? {
        return;
      }
      WithoutNew(old(files), files, dst);
      e := FinishMove(src, dst, old(files));
    }

    method MoveFile(src: string, dst: string) returns (e: Errno)
      requires Valid()
      modifies this
      ensures Recorded() && (src in old(files) ==> KeptAllAlong(src, dst))
      ensures e.Ok? ==> src in old(files) && dst !in old(files) && dst in files
                        && files[dst].content == old(files)[src].content
                        && files - {dst} == old(files) - {src}
      ensures !e.Ok? ==> files - {dst} == old(files) - {dst}
      ensures dst in old(files) ==> !e.Ok? && files == old(files)
      ensures e.Exists? ==> dst in old(files)
      ensures src in old(files) && dst !in old(files) && !barred(dst) ==>
                var locked := old(files)[src].locked;
                && (e.Ok? <==> MoveDone(locked, fails, old(calls)))
                && (!e.Ok? && dst in files <==> MoveLeavesCopy(locked, fails, old(calls)))
      ensures reliable && src in old(files) && dst !in old(files) && !barred(dst) ==>
                e.Ok? && files == (old(files) - {src})[dst := old(files)[src]]
    {
      hide Keeps, CopyDone, CopyStays;
      var linked := Link(src, dst);
      if linked.Ok? {
        NewKeeps(old(files), src, dst, old(files)[src]);
        WithoutNew(old(files), files, dst);
        e := FinishMove(src, dst, old(files));
        return;
      }
      e := MoveByCopy(src, dst);
    }
  }

  lemma NewKeeps(before: map<string, File>, src: string, dst: string, file: File)
    requires src in before && dst !in before
    ensures Keeps(before, src, dst, before[dst := file]) && Keeps(before, src, dst, before)
    ensures before[dst := file] - {dst} == before && before - {dst} == before
  {
  }

  lemma WithoutNew(before: map<string, File>, now: map<string, File>, dst: string)
    requires dst !in before && now - {dst} == before - {dst}
    ensures now - {dst} == before
  {
    assert before - {dst} == before;
  }

  lemma SourceRemoved(before: map<string, File>, now: map<string, File>, src: string, dst: string)
    requires src in before && dst !in before && dst in now && now - {dst} == before
    requires now[dst].content == before[src].content
    ensures Keeps(before, src, dst, now - {src}) && Keeps(before, src, dst, now - {dst})
    ensures (now - {src}) - {dst} == before - {src}
  {
    assert forall p :: p in before ==> p in now && p != dst && now[p] == before[p] by {
      forall p | p in before ensures p in now && p != dst && now[p] == before[p] {
        assert p in now - {dst};
      }
    }
    assert forall p :: p in now ==> p in before || p == dst by {
      forall p | p in now && p != dst ensures p in before {
        assert p in now - {dst};
      }
    }
  }

  lemma OthersStay(was: map<string, File>, now: map<string, File>, path: string, to: string, ok: bool)
    requires to !in was && now - {to} == if ok then was - {path} else was - {to}
    ensures forall p :: p in was && p != path ==> p in now && now[p] == was[p]
    ensures !ok && path in was ==> path in now && now[path] == was[path]
    ensures ok && path != to ==> path !in now
  {
    forall p | p in was && p != path ensures p in now && now[p] == was[p] {
      assert p in now - {to};
    }
    if !ok && path in was {
      assert path in now - {to};
    }
    assert path != to ==> (path in now <==> path in now - {to});
  }
}
