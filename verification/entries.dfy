/** What the torrent store holds, by path, and the events that tell the scheduler of it. */
module Entries {
  import opened Bandwidth
  import opened Files
  import opened Numerals

  /** What a torrent file says: its hash and its announce list. */
  datatype Info = Info(hash: Hash, trackers: seq<string>)

  datatype Event = Added(hash: Hash) | Removed(hash: Hash) | Replaced(hash: Hash)

  // ----- Hashes and events -----

  function Hashes(m: map<string, Info>): set<Hash> {
    set p | p in m :: m[p].hash
  }

  /** Another path holds the hash. */
  predicate Elsewhere(m: map<string, Info>, path: string, h: Hash) {
    exists p :: p in m && p != path && m[p].hash == h
  }

  /** What loadFile emits after it has parsed `info` at `path`. */
  function LoadEvents(m: map<string, Info>, path: string, info: Info): seq<Event> {
    if path !in m then [Added(info.hash)]
    else if m[path] == info then []
    else if m[path].hash == info.hash then [Replaced(info.hash)]
    else if Elsewhere(m, path, m[path].hash) then [Added(info.hash)]
    else [Removed(m[path].hash), Added(info.hash)]
  }

  /** What the removal of the entry at `path` emits. */
  function RemoveEvents(m: map<string, Info>, path: string): seq<Event> {
    if path !in m || Elsewhere(m, path, m[path].hash) then [] else [Removed(m[path].hash)]
  }

  function Heard(hashes: set<Hash>, e: Event): set<Hash> {
    match e
    case Added(h) => hashes + {h}
    case Removed(h) => hashes - {h}
    case Replaced(_) => hashes
  }

  /** What a listener that started with `start` knows after the log. */
  function Replay(start: set<Hash>, log: seq<Event>): set<Hash> {
    if log == [] then start else Heard(Replay(start, log[..|log| - 1]), log[|log| - 1])
  }

  lemma ReplayNothing(start: set<Hash>)
    ensures Replay(start, []) == start
  {
  }

  lemma ReplayOne(start: set<Hash>, log: seq<Event>, e: Event)
    ensures Replay(start, log + [e]) == Heard(Replay(start, log), e)
  {
    assert (log + [e])[..|log|] == log;
  }

  lemma ReplayMore(start: set<Hash>, log: seq<Event>, more: seq<Event>)
    requires |more| <= 2
    ensures Replay(start, log + more) ==
            if |more| == 0 then Replay(start, log)
            else if |more| == 1 then Heard(Replay(start, log), more[0])
            else Heard(Heard(Replay(start, log), more[0]), more[1])
  {
    hide Replay, Heard;
    if |more| == 0 {
      assert log + more == log;
    } else if |more| == 1 {
      ReplayOne(start, log, more[0]);
      assert more == [more[0]];
    } else {
      ReplayOne(start, log, more[0]);
      ReplayOne(start, log + [more[0]], more[1]);
      assert log + more == log + [more[0]] + [more[1]];
    }
  }

  lemma HashesWith(m: map<string, Info>, path: string, info: Info)
    ensures Hashes(m[path := info]) == Hashes(m - {path}) + {info.hash}
  {
    var n, rest := m[path := info], m - {path};
    assert n[path].hash in Hashes(n);
    forall h | h in Hashes(rest) ensures h in Hashes(n) {
      var p :| p in rest && rest[p].hash == h;
      assert n[p].hash == h;
    }
    forall h | h in Hashes(n) ensures h in Hashes(rest) + {info.hash} {
      var p :| p in n && n[p].hash == h;
      assert p != path ==> rest[p].hash == h;
    }
  }

  lemma HashesWithout(m: map<string, Info>, path: string)
    requires path in m
    ensures Hashes(m) == Hashes(m - {path}) + {m[path].hash}
    ensures m[path].hash in Hashes(m - {path}) <==> Elsewhere(m, path, m[path].hash)
  {
    assert m == (m - {path})[path := m[path]];
    HashesWith(m - {path}, path, m[path]);
    assert (m - {path}) - {path} == m - {path};
    var n := m - {path};
    if Elsewhere(m, path, m[path].hash) {
      var p :| p in m && p != path && m[p].hash == m[path].hash;
      assert p in n && n[p].hash == m[path].hash;
    }
  }

  /** The log goes on describing the store through a load. */
  lemma LoadReplays(start: set<Hash>, log: seq<Event>, m: map<string, Info>, path: string, info: Info)
    requires Replay(start, log) == Hashes(m)
    ensures Replay(start, log + LoadEvents(m, path, info)) == Hashes(m[path := info])
  {
    hide Hashes, Elsewhere;
    ReplayMore(start, log, LoadEvents(m, path, info));
    HashesWith(m, path, info);
    if path in m {
      HashesWithout(m, path);
    } else {
      assert m - {path} == m;
    }
  }

  /** And through a removal. */
  lemma RemoveReplays(start: set<Hash>, log: seq<Event>, m: map<string, Info>, path: string)
    requires Replay(start, log) == Hashes(m)
    ensures Replay(start, log + RemoveEvents(m, path)) == Hashes(m - {path})
  {
    hide Hashes, Elsewhere;
    ReplayMore(start, log, RemoveEvents(m, path));
    if path in m {
      HashesWithout(m, path);
    } else {
      assert m - {path} == m;
    }
  }

  /** Removed is emitted for a hash exactly when its last copy goes. */
  lemma RemovedIsTheLastCopy(m: map<string, Info>, path: string, info: Info, h: Hash)
    ensures Removed(h) in RemoveEvents(m, path) <==> h in Hashes(m) && h !in Hashes(m - {path})
    ensures Removed(h) in LoadEvents(m, path, info) <==> h in Hashes(m) && h !in Hashes(m[path := info])
  {
    hide Hashes, Elsewhere;
    HashesWith(m, path, info);
    if path in m {
      HashesWithout(m, path);
    } else {
      assert m - {path} == m;
    }
  }

  /** Added tells of a hash that its path did not hold, Replaced of a new announce list, and each event comes
      once, a Removed before the Added; a load that changes nothing says nothing. */
  lemma LoadTellsExactly(m: map<string, Info>, path: string, info: Info, h: Hash)
    ensures var events := LoadEvents(m, path, info);
            && (Added(h) in events <==> h == info.hash && (path !in m || m[path].hash != h))
            && (Replaced(h) in events <==>
                  h == info.hash && path in m && m[path].hash == h && m[path].trackers != info.trackers)
            && (forall e :: e in events ==> e.hash == info.hash || e.Removed?)
            && |events| <= 2 && (|events| == 2 ==> events[0].Removed? && events[1] == Added(info.hash))
            && (events == [] <==> path in m && m[path] == info)
  {
    hide Elsewhere;
  }

  /** A removal says Removed once or nothing. */
  lemma RemovalTellsExactly(m: map<string, Info>, path: string)
    ensures RemoveEvents(m, path) ==
            if path in m && m[path].hash !in Hashes(m - {path}) then [Removed(m[path].hash)] else []
  {
    hide Elsewhere, Hashes;
    if path in m {
      HashesWithout(m, path);
    }
  }

  // ----- Transfers and the set of hashes -----

  /** The entries after a transfer that left the torrent at `at`. */
  function Moved(m: map<string, Info>, oldPath: string, newPath: string, at: string, info: Info): map<string, Info> {
    (m - {oldPath, newPath})[at := info]
  }

  /** The entry at `path`, if any, holds the hash or has a copy outside the two paths. */
  predicate Spare(m: map<string, Info>, oldPath: string, newPath: string, path: string, h: Hash) {
    path in m ==> m[path].hash == h || m[path].hash in Hashes(m - {oldPath, newPath})
  }

  /** A transfer, committed or rolled back, leaves the set of hashes as it was exactly when the hash was
      loaded and no entry at either path is the only one of another hash. */
  lemma TransferKeepsHashesExactly(m: map<string, Info>, oldPath: string, newPath: string, at: string, info: Info)
    requires at == oldPath || at == newPath
    ensures Hashes(Moved(m, oldPath, newPath, at, info)) == Hashes(m) <==>
              info.hash in Hashes(m)
              && Spare(m, oldPath, newPath, oldPath, info.hash) && Spare(m, oldPath, newPath, newPath, info.hash)
  {
    var rest := m - {oldPath, newPath};
    HashesWith(rest, at, info);
    assert rest - {at} == rest;
    assert forall p :: p in m ==> p in rest || p == oldPath || p == newPath;
    assert forall p :: p in rest ==> m[p] == rest[p];
    forall p | p in m ensures m[p].hash in Hashes(m) {
    }
    forall h | h in Hashes(m) ensures h in Hashes(rest) || (oldPath in m && m[oldPath].hash == h)
                                      || (newPath in m && m[newPath].hash == h) {
      var p :| p in m && m[p].hash == h;
      assert p in rest ==> rest[p].hash in Hashes(rest);
    }
    forall h | h in Hashes(rest) ensures h in Hashes(m) {
      var p :| p in rest && rest[p].hash == h;
      assert m[p].hash == h;
    }
  }

  /** An entry whose file vanished before the last scan is lost when a transfer picks its path. */
  lemma StaleEntryIsLost(oldPath: string, newPath: string, h: Hash, k: Hash)
    requires oldPath != newPath && h != k
    ensures var m := map[oldPath := Info(h, []), newPath := Info(k, [])];
            k in Hashes(m) && k !in Hashes(Moved(m, oldPath, newPath, newPath, m[oldPath]))
  {
    var m := map[oldPath := Info(h, []), newPath := Info(k, [])];
    assert m[newPath].hash in Hashes(m);
  }

  // ----- Directories -----

  function Dir(path: string): string
    requires LastIndex(path, '/') >= 0
  {
    path[..LastIndex(path, '/')]
  }

  /** The torrent files right in the directory. */
  function Listed(paths: set<string>, dir: string): set<string> {
    set p | p in paths && RightIn(dir, p) && IsTorrentPath(p)
  }

  predicate RightIn(dir: string, path: string) {
    LastIndex(path, '/') >= 0 && Dir(path) == dir
  }

  /** The numbered names of a torrent file are torrent files right in the directory, which a scan lists. */
  lemma CandidatesAreListed(dir: string, name: string, i: nat)
    requires '/' !in name && Ext(name) == ".torrent"
    ensures IsTorrentPath(Candidate(dir, name, i)) && RightIn(dir, Candidate(dir, name, i))
    ensures Candidate(dir, name, i) == dir + "/" + name[..|name| - 8] + "." + FormatUint(i, 10) + ".torrent"
  {
    hide Ext, Stem, Base, LastIndex, FormatUint;
    var stem := Stem(name);
    SplitName(name);
    assert name == stem + "." + "torrent" && stem == name[..|name| - 8];
    CandidateIs(dir, stem, "torrent", i);
    var path := Candidate(dir, name, i);
    var rest := stem + "." + FormatUint(i, 10) + "." + "torrent";
    assert path == dir + "/" + rest;
    NumberHasNoSlash(i);
    assert path[|dir|] == '/' && forall k :: |dir| < k < |path| ==> path[k] == rest[k - |dir| - 1];
    assert LastIndex(path, '/') == |dir|;
  }

  lemma SplitName(name: string)
    ensures name == Stem(name) + Ext(name)
  {
  }

  /** The function lists every set of paths, each path once. */
  ghost predicate ListsSets(order: set<string> -> seq<string>) {
    forall s :: ListsSet(order(s), s)
  }

  predicate ListsSet(q: seq<string>, s: set<string>) {
    && (forall i :: 0 <= i < |q| ==> q[i] in s)
    && (forall p :: p in s ==> p in q)
    && (forall i, j :: 0 <= i < j < |q| ==> q[i] != q[j])
  }

  predicate IsTorrentPath(path: string) {
    Ext(Base(path)) == ".torrent"
  }

  // ----- Small steps -----

  lemma ElsewhereWithout(m: map<string, Info>, path: string, h: Hash)
    ensures Elsewhere(m - {path}, path, h) <==> Elsewhere(m, path, h)
  {
    if Elsewhere(m, path, h) {
      var p :| p in m && p != path && m[p].hash == h;
      assert (m - {path})[p].hash == h;
    }
  }

  lemma ElsewhereAfter(m: map<string, Info>, path: string, info: Info, h: Hash)
    ensures Elsewhere(m[path := info], path, h) <==> Elsewhere(m, path, h)
  {
    if Elsewhere(m, path, h) {
      var p :| p in m && p != path && m[p].hash == h;
      assert m[path := info][p].hash == h;
    }
  }

  lemma NothingToRemove(m: map<string, Info>, path: string)
    ensures path !in m ==> m - {path} == m && RemoveEvents(m, path) == []
  {
  }

  lemma MovedOnce(m: map<string, Info>, oldPath: string, newPath: string, at: string, info: Info)
    ensures Moved(m[newPath := info], oldPath, newPath, at, info) == Moved(m, oldPath, newPath, at, info)
  {
  }

  lemma RemoveEventsAre(m: map<string, Info>, path: string)
    ensures RemoveEvents(m, path) == [] || (path in m && RemoveEvents(m, path) == [Removed(m[path].hash)])
  {
  }

  lemma RemoveEventsOf(m: map<string, Info>, path: string)
    ensures RemoveEvents(m, path) ==
            if path !in m || Elsewhere(m, path, m[path].hash) then [] else [Removed(m[path].hash)]
  {
  }

  lemma KeysWithout(m: map<string, Meta>, n: map<string, Meta>, path: string)
    requires m - {path} == n - {path}
    ensures m.Keys <= n.Keys + {path}
  {
    forall p | p in m && p != path ensures p in n {
      assert p in m - {path};
    }
  }
}
