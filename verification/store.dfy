/** The torrent store: torrents by path, fingerprints of the files loaded, the event log the scheduler
    follows, and the transfer of files between the torrents and the archive directory. */
module Store {
  import opened Numerals
  import opened Bandwidth
  import opened Files
  import opened Entries
  import Scans

  /** How reading a torrent file ends. */
  datatype Outcome = Loaded(info: Info) | Missing | Broken

  class Torrent {
    const hash: Hash
    const trackers: seq<string>
    var path: string

    constructor (path: string, info: Info)
      ensures this.path == path && Says() == info
    {
      this.path, hash, trackers := path, info.hash, info.trackers;
    }

    function Says(): Info {
      Info(hash, trackers)
    }
  }

  function InfosOf(m: map<string, Torrent>): map<string, Info> {
    map p | p in m :: m[p].Says()
  }

  lemma InfosWith(m: map<string, Torrent>, path: string, t: Torrent)
    ensures InfosOf(m[path := t]) == InfosOf(m)[path := t.Says()]
  {
  }

  lemma InfosWithout(m: map<string, Torrent>, paths: set<string>)
    ensures InfosOf(m - paths) == InfosOf(m) - paths && InfosOf(m).Keys == m.Keys
    ensures forall p :: p in m ==> InfosOf(m)[p] == m[p].Says()
  {
  }

  lemma InfosMoved(m: map<string, Torrent>, oldPath: string, newPath: string, at: string, t: Torrent)
    ensures InfosOf((m - {oldPath, newPath})[at := t]) == Moved(InfosOf(m), oldPath, newPath, at, t.Says())
  {
  }

  class Store {
    const fs: FileSystem
    const torrentsDir: string
    const archiveDir: string
    /** The parser of torrent files. */
    const decode: string -> Option<Info>
    /** The order in which a set of names is gone through. */
    const order: set<string> -> seq<string>
    var byPath: map<string, Torrent>
    var loadedMeta: map<string, Meta>
    var failedMeta: map<string, Meta>
    var pendingLoads: map<string, nat>
    var nextLoadID: nat
    var events: seq<Event>
    /** The hashes the scheduler starts from. */
    ghost var start: set<Hash>

    function Infos(): map<string, Info>
      reads this`byPath
    {
      InfosOf(byPath)
    }

    /** Every torrent's path is the key it is found under. */
    ghost predicate Valid()
      reads this, fs`files, fs`trace, byPath.Values
    {
      && fs.Valid() && ListsSets(order)
      && loadedMeta.Keys <= byPath.Keys
      && forall p :: p in byPath ==> byPath[p].path == p
    }

    /** The events tell exactly which hashes the store holds. */
    ghost predicate LogRight()
      reads this
    {
      Replay(start, events) == Hashes(Infos())
    }

    /** What a scan can see and change. */
    ghost function View(): Scans.State
      reads this, fs`files
    {
      Scans.State(fs.files, Infos(), loadedMeta, failedMeta, events)
    }

    /** The surroundings of a scan on a file system on which only the reading of locked files fails. */
    ghost function Setting(): Scans.Env {
      Scans.Env(torrentsDir, archiveDir, decode, order, Scans.LinkedInto(fs.barred, archiveDir))
    }

    constructor (fs: FileSystem, torrentsDir: string, archiveDir: string, decode: string -> Option<Info>,
                 order: set<string> -> seq<string>)
      requires fs.Valid() && ListsSets(order)
      ensures Valid() && LogRight() && View() == Scans.EMPTY.(files := fs.files)
      ensures this.fs == fs && this.torrentsDir == torrentsDir && this.archiveDir == archiveDir
      ensures this.decode == decode && this.order == order
    {
      this.order := order;
      this.fs, this.torrentsDir, this.archiveDir, this.decode := fs, torrentsDir, archiveDir, decode;
      byPath, loadedMeta, failedMeta, pendingLoads, nextLoadID := map[], map[], map[], map[], 0;
      events, start := [], {};
    }

    /** One operation on the entry at `path`: a load, a removal, or nothing. */
    twostate predicate Handled(path: string)
      reads this
    {
      || (Infos() == old(Infos()) && events == old(events))
      || (Infos() == old(Infos()) - {path} && events == old(events) + RemoveEvents(old(Infos()), path))
      || (exists info :: Infos() == old(Infos())[path := info]
                         && events == old(events) + LoadEvents(old(Infos()), path, info))
    }

    twostate lemma HandledReplays(path: string)
      requires Handled(path) && old(LogRight()) && start == old(start)
      ensures LogRight()
    {
      hide Hashes, Replay, LoadEvents, RemoveEvents;
      RemoveReplays(start, old(events), old(Infos()), path);
      forall info | Infos() == old(Infos())[path := info]
                    && events == old(events) + LoadEvents(old(Infos()), path, info)
        ensures LogRight()
      {
        LoadReplays(start, old(events), old(Infos()), path, info);
      }
    }

    method Load(path: string) returns (r: Outcome)
      requires fs.Valid()
      modifies fs`calls
      ensures r.Loaded? ==> path in fs.files && decode(fs.files[path].content) == Some(r.info)
      ensures r.Missing? ==> path !in fs.files
      ensures fs.reliable ==>
                r == if path !in fs.files then Missing
                     else if Scans.Read(Setting(), fs.files[path]).Some?
                     then Loaded(Scans.Read(Setting(), fs.files[path]).value) else Broken
    {
      var e, content := fs.Open(path);
      if e.NotExist? {
        return Missing;
      }
      if !e.Ok? {
        return Broken;
      }
      var info := decode(content);
      r := if info.Some? then Loaded(info.value) else Broken;
    }

    method LoadTorrentWithRetry(path: string) returns (r: Outcome)
      requires fs.Valid()
      modifies fs`calls
      ensures r.Loaded? ==> path in fs.files && decode(fs.files[path].content) == Some(r.info)
      ensures r.Missing? ==> path !in fs.files
      ensures fs.reliable ==>
                r == if path !in fs.files then Missing
                     else if Scans.Read(Setting(), fs.files[path]).Some?
                     then Loaded(Scans.Read(Setting(), fs.files[path]).value) else Broken
    {
      r := Load(path);
      if r.Broken? {
        r := Load(path);
      }
    }

    method RecordFailedMeta(path: string)
      requires Valid()
      modifies this`failedMeta
      ensures Valid()
      ensures failedMeta == old(failedMeta)
              || (path in fs.files && failedMeta == old(failedMeta)[path := fs.files[path].meta])
      ensures fs.reliable && path in fs.files ==> failedMeta == old(failedMeta)[path := fs.files[path].meta]
    {
      var meta := fs.StatMeta(path);
      if meta.Some? {
        failedMeta := failedMeta[path := meta.value];
      }
    }

    method IsRecentlyModified(path: string, now: int) returns (recent: bool)
      requires fs.Valid()
      ensures recent ==> path in fs.files && Scans.Recent(now, fs.files[path].meta)
      ensures fs.reliable && path in fs.files ==> recent == Scans.Recent(now, fs.files[path].meta)
    {
      var meta := fs.StatMeta(path);
      recent := meta.Some? && now - meta.value.modTime < Scans.ARCHIVE_GRACE_PERIOD;
    }

    method HasOtherPathWithInfoHash(path: string, h: Hash) returns (found: bool)
      ensures found == Elsewhere(Infos(), path, h)
    {
      var todo := byPath.Keys;
      while todo != {}
        invariant todo <= byPath.Keys
        invariant forall p :: p in byPath && p !in todo ==> p == path || byPath[p].hash != h
        decreases todo
      {
        var p :| p in todo;
        if p != path && byPath[p].hash == h {
          assert Infos()[p].hash == h;
          return true;
        }
        todo := todo - {p};
      }
      found := false;
    }

    method RemoveTorrentEntry(path: string) returns (gone: Option<Hash>)
      requires Valid()
      modifies this`byPath, this`loadedMeta, this`failedMeta
      ensures Valid() && Infos() == old(Infos()) - {path}
      ensures loadedMeta == old(loadedMeta) - {path} && failedMeta == old(failedMeta) - {path}
      ensures gone == if RemoveEvents(old(Infos()), path) == [] then None else Some(old(Infos())[path].hash)
    {
      hide InfosOf, RemoveEvents, Elsewhere;
      var present := path in byPath;
      var h := if present then byPath[path].hash else 0;
      InfosWithout(byPath, {path});
      RemoveEventsOf(Infos(), path);
      byPath := byPath - {path};
      loadedMeta := loadedMeta - {path};
      failedMeta := failedMeta - {path};
      if !present {
        return None;
      }
      var duplicated := HasOtherPathWithInfoHash(path, h);
      ElsewhereWithout(old(Infos()), path, h);
      gone := if duplicated then None else Some(h);
    }

    method RemoveFile(path: string)
      requires Valid()
      modifies this`byPath, this`loadedMeta, this`failedMeta, this`events
      ensures Valid() && View() == Scans.Remove(old(View()), true, path)
      ensures Infos() == old(Infos()) - {path} && events == old(events) + RemoveEvents(old(Infos()), path)
      ensures loadedMeta == old(loadedMeta) - {path} && failedMeta == old(failedMeta) - {path}
    {
      hide RemoveEvents;
      RemoveEventsAre(Infos(), path);
      var gone := RemoveTorrentEntry(path);
      if gone.Some? {
        events := events + [Removed(gone.value)];
      }
    }

    /** The search for a name in the archive is still going after that many stats. */
    predicate Searching(path: string, stats: nat)
      reads fs`files
    {
      archiveDir != "" && Search(fs.files, fs.barred, archiveDir, Base(path), stats).None?
    }

    /** Moves a file that cannot be loaded to the archive directory. As in all operations that look for a
        name, `ended` tells that the search ended within `stats` stats; where none suffices, the source
        never comes back. */
    method ArchiveFile(path: string, stats: nat) returns (dest: Option<string>, ended: bool)
      requires Valid() && archiveDir != ""
      modifies fs
      ensures Valid() && fs.Recorded()
      ensures !ended ==> dest.None? && fs.files == old(fs.files) && Searching(path, stats)
      ensures fs.reliable ==> (ended <==> !old(Searching(path, stats)))
      ensures dest.Some? ==> path !in fs.files && path in old(fs.files) && dest.value in fs.files
                             && fs.files[dest.value].content == old(fs.files)[path].content
      ensures forall p :: p in old(fs.files) && p != path ==> p in fs.files && fs.files[p] == old(fs.files)[p]
      ensures dest.None? && path in old(fs.files) ==> path in fs.files && fs.files[path] == old(fs.files)[path]
      ensures fs.reliable && ended && path in old(fs.files) ==>
                && dest == Some(FirstFree(old(fs.files), fs.barred, archiveDir, Base(path)))
                && fs.files == (old(fs.files) - {path})[dest.value := old(fs.files)[path]]
    {
      hide Search, FirstFree;
      var made := fs.MkdirAll(archiveDir);
      if !made {
        return None, true;
      }
      var to := fs.UniquePath(archiveDir, Base(path), stats);
      if to.None? {
        return None, false;
      }
      ghost var was := fs.files;
      FoundFirst(was, fs.barred, archiveDir, Base(path), stats);
      var e := fs.MoveFile(path, to.value);
      OthersStay(was, fs.files, path, to.value, e.Ok?);
      dest, ended := if e.Ok? then to else None, true;
    }

    /** Fingerprints on record are old ones or, for failures, those of files there are; only `path` may lose
        its own. */
    static predicate OwnPrints(path: string, files: map<string, File>, loaded: map<string, Meta>,
                               failed: map<string, Meta>, nowLoaded: map<string, Meta>, nowFailed: map<string, Meta>)
    {
      && nowLoaded - {path} == loaded - {path}
      && (forall p :: p in nowLoaded ==> p in loaded && nowLoaded[p] == loaded[p])
      && (forall p :: p in failed && p != path ==> p in nowFailed)
      && (forall p :: p in nowFailed ==>
            || (p in failed && nowFailed[p] == failed[p])
            || (p in files && nowFailed[p] == files[p].meta))
    }

    /** What becomes of a file that cannot be loaded; its content is never given up. */
    method HandleLoadFailure(path: string, missing: bool, now: int, stats: nat) returns (ended: bool)
      requires Valid() && (missing ==> path !in fs.files)
      modifies this`byPath, this`loadedMeta, this`failedMeta, this`events, fs
      ensures Valid() && Handled(path) && fs.Recorded()
      ensures OwnPrints(path, fs.files, old(loadedMeta), old(failedMeta), loadedMeta, failedMeta)
      ensures !ended ==> View() == old(View()) && Searching(path, stats)
      ensures missing || Below(archiveDir, path) ==> ended
      ensures Infos() != old(Infos()) ==> path !in fs.files
      ensures path in old(fs.files) ==>
                exists q :: q in fs.files && fs.files[q].content == old(fs.files)[path].content
      ensures path !in old(byPath) ==> Infos() == old(Infos()) && events == old(events)
      ensures missing ==> View() == Scans.Remove(old(View()), true, path)
      ensures fs.reliable && ended && path in old(fs.files) ==> View() == Scans.Fail(Setting(), old(View()), now, path)
    {
      NothingToRemove(Infos(), path);
      if missing {
        RemoveFile(path);
        return true;
      }
      if archiveDir == "" || Below(archiveDir, path) {
        RecordFailedMeta(path);
        return true;
      }
      var recent := IsRecentlyModified(path, now);
      ended := true;
      if !recent {
        ended := GiveToArchive(path, now, stats);
      }
    }

    lemma FailedMetaIsOwn(path: string, loaded: map<string, Meta>, failed: map<string, Meta>)
      requires loadedMeta == loaded
      requires failedMeta == failed || (path in fs.files && failedMeta == failed[path := fs.files[path].meta])
      ensures OwnPrints(path, fs.files, loaded, failed, loadedMeta, failedMeta)
    {
    }

    /** The file is put away; if it cannot be, its failure is on record and its entry stays. */
    method GiveToArchive(path: string, now: int, stats: nat) returns (ended: bool)
      requires Valid() && !Scans.LeavesBadFiles(Setting(), path)
      modifies this`byPath, this`loadedMeta, this`failedMeta, this`events, fs
      ensures Valid() && Handled(path) && fs.Recorded()
      ensures OwnPrints(path, fs.files, old(loadedMeta), old(failedMeta), loadedMeta, failedMeta)
      ensures !ended ==> View() == old(View()) && Searching(path, stats)
      ensures Infos() != old(Infos()) ==> path !in fs.files
      ensures path in old(fs.files) ==>
                exists q :: q in fs.files && fs.files[q].content == old(fs.files)[path].content
      ensures path !in old(byPath) ==> Infos() == old(Infos()) && events == old(events)
      ensures fs.reliable && ended && path in old(fs.files) && !Scans.Recent(now, old(fs.files)[path].meta) ==>
                View() == Scans.Fail(Setting(), old(View()), now, path)
    {
      hide RemoveEvents, LoadEvents, Search, FirstFree, InfosOf, Base, Below, OwnPrints;
      hide Scans.Fail, Scans.LinkedInto, Scans.Remove, Scans.Recent;
      ghost var was := View();
      var dest;
      dest, ended := ArchiveFile(path, stats);
      FailedMetaIsOwn(path, old(loadedMeta), old(failedMeta));
      if !ended {
        return;
      }
      if fs.reliable && path in was.files && !Scans.Recent(now, was.files[path].meta) {
        assert SearchEnds(was.files, fs.barred, archiveDir, Base(path));
        Scans.FailLinks(Setting(), fs.barred, was, now, path);
      }
      if dest.None? {
        RecordFailedMeta(path);
        FailedMetaIsOwn(path, old(loadedMeta), old(failedMeta));
        return;
      }
      RemoveArchived(path, dest.value);
    }

    /** The failure is on record for the new name, and the entry of the old one goes. */
    method RemoveArchived(path: string, dest: string)
      requires Valid() && path !in fs.files && dest in fs.files
      modifies this`byPath, this`loadedMeta, this`failedMeta, this`events
      ensures Valid() && Infos() == old(Infos()) - {path}
      ensures events == old(events) + RemoveEvents(old(Infos()), path)
      ensures path !in old(byPath) ==> Infos() == old(Infos()) && events == old(events)
      ensures OwnPrints(path, fs.files, old(loadedMeta), old(failedMeta), loadedMeta, failedMeta)
      ensures fs.reliable ==>
                var noted := old(View()).(failedMeta := old(failedMeta)[dest := fs.files[dest].meta]);
                View() == Scans.Remove(noted, true, path)
    {
      hide RemoveEvents, InfosOf, Scans.Remove;
      InfosWithout(byPath, {});
      NothingToRemove(Infos(), path);
      RecordFailedMeta(dest);
      RemoveFile(path);
    }

    method LoadFileQuiet(path: string, now: int, stats: nat) returns (ended: bool)
      requires Valid()
      modifies this`byPath, this`loadedMeta, this`failedMeta, this`events, fs
      ensures Valid()
      ensures !ended ==> View() == old(View()) && Searching(path, stats)
      ensures byPath.Keys <= old(byPath.Keys) + {path}
      ensures path !in old(byPath) ==> events == old(events)
      ensures fs.reliable && path in old(fs.files) && Scans.Read(Setting(), old(fs.files)[path]).Some? ==> ended
      ensures fs.reliable && ended ==> View() == Scans.LoadOne(Setting(), old(View()), now, false, path)
    {
      hide Scans.Fail, Scans.Remove, RemoveEvents, LoadEvents, Search;
      ghost var was := Infos();
      assert was.Keys == byPath.Keys;
      var r := LoadTorrentWithRetry(path);
      if !r.Loaded? {
        ended := HandleLoadFailure(path, r.Missing?, now, stats);
        assert Infos().Keys <= was.Keys + {path};
        assert byPath.Keys == Infos().Keys;
        return;
      }
      SetEntry(path, r.info);
      assert byPath.Keys == Infos().Keys == was.Keys + {path};
      ended := true;
    }

    /** The fingerprint of a file that was loaded, if it can still be examined; its failure is forgotten. */
    method RecordLoadedMeta(path: string)
      requires fs.Valid()
      modifies this`loadedMeta, this`failedMeta
      ensures loadedMeta - {path} == old(loadedMeta) - {path} && failedMeta == old(failedMeta) - {path}
      ensures loadedMeta == old(loadedMeta)
              || (path in fs.files && loadedMeta == old(loadedMeta)[path := fs.files[path].meta])
      ensures fs.reliable && path in fs.files ==> loadedMeta == old(loadedMeta)[path := fs.files[path].meta]
    {
      var meta := fs.StatMeta(path);
      if meta.Some? {
        loadedMeta := loadedMeta[path := meta.value];
      }
      failedMeta := failedMeta - {path};
    }

    /** The entry and its fingerprint. */
    method SetEntry(path: string, info: Info)
      requires Valid()
      modifies this`byPath, this`loadedMeta, this`failedMeta
      ensures Valid() && Infos() == old(Infos())[path := info] && failedMeta == old(failedMeta) - {path}
      ensures loadedMeta - {path} == old(loadedMeta) - {path}
      ensures loadedMeta == old(loadedMeta)
              || (path in fs.files && loadedMeta == old(loadedMeta)[path := fs.files[path].meta])
      ensures fs.reliable && path in fs.files ==> loadedMeta == old(loadedMeta)[path := fs.files[path].meta]
    {
      hide InfosOf;
      var t := new Torrent(path, info);
      InfosWith(byPath, path, t);
      byPath := byPath[path := t];
      RecordLoadedMeta(path);
      KeysWithout(loadedMeta, old(loadedMeta), path);
    }

    /** The events of a load, found by looking through the store after the entry was replaced. */
    method EmitLoad(path: string, before: Option<Info>, info: Info, ghost was: map<string, Info>)
      requires Infos() == was[path := info] && before == if path in was then Some(was[path]) else None
      modifies this`events
      ensures events == old(events) + LoadEvents(was, path, info)
    {
      if before == None {
        events := events + [Added(info.hash)];
      } else if before.value.hash == info.hash && before.value.trackers == info.trackers {
        assert events + [] == events;
      } else if before.value.hash == info.hash {
        events := events + [Replaced(info.hash)];
      } else {
        var other := HasOtherPathWithInfoHash(path, before.value.hash);
        ElsewhereAfter(was, path, info, before.value.hash);
        if !other {
          events := events + [Removed(before.value.hash)];
        }
        events := events + [Added(info.hash)];
      }
    }

    /** What was read is entered and told. */
    method EnterLoaded(path: string, info: Info)
      requires Valid()
      modifies this`byPath, this`loadedMeta, this`failedMeta, this`events
      ensures Valid() && Handled(path)
      ensures fs.reliable && path in fs.files ==> View() == Scans.Enter(old(View()), true, path, info)
    {
      hide LoadEvents, InfosOf;
      InfosWithout(byPath, {});
      ghost var was := Infos();
      var before := if path in byPath then Some(byPath[path].Says()) else None;
      SetEntry(path, info);
      EmitLoad(path, before, info, was);
    }

    method LoadFile(path: string, now: int, stats: nat) returns (ended: bool)
      requires Valid()
      modifies this`byPath, this`loadedMeta, this`failedMeta, this`events, fs
      ensures Valid() && Handled(path) && (old(LogRight()) ==> LogRight())
      ensures fs.Recorded()
      ensures !ended ==> View() == old(View()) && Searching(path, stats)
      ensures fs.reliable && path in old(fs.files) && Scans.Read(Setting(), old(fs.files)[path]).Some? ==> ended
      ensures fs.reliable && ended ==> View() == Scans.LoadOne(Setting(), old(View()), now, true, path)
    {
      hide Scans.Fail, Scans.Remove, Scans.Enter, Scans.Read, RemoveEvents, LoadEvents, Search, InfosOf;
      var r := LoadTorrentWithRetry(path);
      if !r.Loaded? {
        ended := HandleLoadFailure(path, r.Missing?, now, stats);
      } else {
        EnterLoaded(path, r.info);
        ended := true;
      }
      if old(LogRight()) {
        HandledReplays(path);
      }
    }

    /** The path has been loaded, or has failed to load, with the size and time its file has now. */
    method HasUnchangedMeta(path: string) returns (same: bool)
      requires fs.Valid()
      ensures same ==> Scans.Unchanged(View(), path)
      ensures fs.reliable ==> same == Scans.Unchanged(View(), path)
    {
      var meta := fs.StatMeta(path);
      same := meta.Some? && ((path in loadedMeta && loadedMeta[path] == meta.value)
                             || (path in failedMeta && failedMeta[path] == meta.value));
    }

    /** The torrent files right in `dir`, in the order names are listed. */
    method ReadDir(dir: string) returns (e: Errno, paths: seq<string>)
      ensures e.Ok? ==> paths == order(Listed(fs.files.Keys, dir))
      ensures fs.reliable ==> e.Ok?
    {
      e := fs.OpenDir(dir);
      paths := if e.Ok? then order(Listed(fs.files.Keys, dir)) else [];
    }

    /** One file of a scan: it is loaded unless its fingerprint is known. */
    method VisitFile(path: string, notify: bool, now: int, stats: nat) returns (ended: bool)
      requires Valid()
      modifies this`byPath, this`loadedMeta, this`failedMeta, this`events, fs
      ensures Valid()
      ensures !ended ==> Searching(path, stats)
      ensures notify && old(LogRight()) ==> LogRight()
      ensures !notify && path !in old(byPath) ==> events == old(events) && byPath.Keys <= old(byPath.Keys) + {path}
      ensures fs.reliable && ended ==> View() == Scans.Visit(Setting(), true, old(View()), now, notify, path)
    {
      hide Scans.LoadOne, Scans.Unchanged, Search, InfosOf, Hashes, Replay;
      var skip := HasUnchangedMeta(path);
      if skip {
        ended := true;
      } else if notify {
        ended := LoadFile(path, now, stats);
      } else {
        ended := LoadFileQuiet(path, now, stats);
      }
    }

    /** Visits the files in order. The visits stop for good at a file whose search for a name
        does not end; `stuck` is that file. */
    method LoadAll(paths: seq<string>, notify: bool, now: int, stats: nat) returns (stuck: Option<string>)
      requires Valid() && forall i, j :: 0 <= i < j < |paths| ==> paths[i] != paths[j]
      modifies this`byPath, this`loadedMeta, this`failedMeta, this`events, fs
      ensures Valid()
      ensures stuck.Some? ==> stuck.value in paths && Searching(stuck.value, stats)
      ensures notify && old(LogRight()) ==> LogRight()
      ensures !notify && (forall p :: p in paths ==> p !in old(byPath)) ==>
                events == old(events) && forall p :: p in byPath ==> p in old(byPath) || p in paths
      ensures fs.reliable && stuck.None? ==> View() == Scans.VisitAll(Setting(), true, old(View()), now, notify, paths)
    {
      hide Scans.Visit, Scans.VisitAll, Search, InfosOf, Hashes, Replay;
      for i := 0 to |paths|
        invariant Valid()
        invariant notify && old(LogRight()) ==> LogRight()
        invariant !notify && (forall p :: p in paths ==> p !in old(byPath)) ==>
                    events == old(events) && forall p :: p in byPath ==> p in old(byPath) || p in paths[..i]
        invariant fs.reliable ==> Scans.VisitAll(Setting(), true, View(), now, notify, paths[i..])
                                  == Scans.VisitAll(Setting(), true, old(View()), now, notify, paths)
      {
        Scans.VisitNext(Setting(), true, View(), now, notify, paths, i);
        assert paths[..i + 1] == paths[..i] + [paths[i]];
        var ended := VisitFile(paths[i], notify, now, stats);
        if !ended {
          return Some(paths[i]);
        }
      }
      Scans.VisitDone(Setting(), true, View(), now, notify);
      assert paths[|paths|..] == [] && paths[..|paths|] == paths;
      stuck := None;
    }

    /** Forgets entries whose files were not seen; only a notifying scan emits events. */
    method RemoveMissing(seen: set<string>, notify: bool)
      requires Valid()
      modifies this`byPath, this`loadedMeta, this`failedMeta, this`events
      ensures Valid() && View() == Scans.RemoveAll(old(View()), notify, order(old(byPath.Keys) - seen))
      ensures notify && old(LogRight()) ==> LogRight()
      ensures !notify ==> events == old(events)
    {
      hide Scans.Remove, Scans.RemoveAll;
      var missing := order(byPath.Keys - seen);
      for i := 0 to |missing|
        invariant Valid()
        invariant Scans.RemoveAll(View(), notify, missing[i..]) == Scans.RemoveAll(old(View()), notify, missing)
        invariant notify && old(LogRight()) ==> LogRight()
        invariant !notify ==> events == old(events)
      {
        Scans.RemoveNext(View(), notify, missing, i);
        RemoveOne(missing[i], notify);
      }
      Scans.RemoveDone(View(), notify);
      assert missing[|missing|..] == [];
    }

    method RemoveOne(path: string, notify: bool)
      requires Valid()
      modifies this`byPath, this`loadedMeta, this`failedMeta, this`events
      ensures Valid() && View() == Scans.Remove(old(View()), notify, path)
      ensures notify && old(LogRight()) ==> LogRight()
      ensures !notify ==> events == old(events)
    {
      if notify {
        RemoveFile(path);
        if old(LogRight()) {
          HandledReplays(path);
        }
      } else {
        var gone := RemoveTorrentEntry(path);
      }
    }

    /** The part of a scan in one directory. */
    method LoadDir(dir: string, notify: bool, now: int, stats: nat)
      returns (ok: bool, seen: set<string>, stuck: Option<string>)
      requires Valid()
      modifies this`byPath, this`loadedMeta, this`failedMeta, this`events, fs
      ensures Valid() && forall p :: p in seen ==> RightIn(dir, p)
      ensures stuck.Some? ==> stuck.value in seen && Searching(stuck.value, stats)
      ensures notify && old(LogRight()) ==> LogRight()
      ensures !notify && (forall p :: p in old(byPath) ==> !RightIn(dir, p)) ==>
                events == old(events) && byPath.Keys <= old(byPath.Keys) + seen
      ensures fs.reliable ==> ok && seen == Listed(old(fs.files.Keys), dir)
      ensures fs.reliable && stuck.None? ==>
                View() == Scans.VisitAll(Setting(), true, old(View()), now, notify, order(seen))
    {
      hide Scans.VisitAll, Search;
      var e, paths := ReadDir(dir);
      if !e.Ok? {
        return dir == archiveDir && e.NotExist?, {}, None;
      }
      ok, seen := true, Listed(fs.files.Keys, dir);
      assert ListsSet(order(seen), seen);
      stuck := LoadAll(paths, notify, now, stats);
    }

    /** The visits of a scan, in one directory after the other. */
    method LoadDirs(notify: bool, now: int, stats: nat)
      returns (ok: bool, seen: set<string>, stuck: Option<string>)
      requires Valid()
      modifies this`byPath, this`loadedMeta, this`failedMeta, this`events, fs
      ensures Valid() && (notify && old(LogRight()) ==> LogRight())
      ensures stuck.Some? ==> stuck.value in seen && Searching(stuck.value, stats)
      ensures !notify && old(byPath) == map[] ==> events == old(events) && byPath.Keys <= seen
      ensures fs.reliable && stuck.None? ==>
                ok && View() == Scans.VisitDirs(Setting(), true, old(View()), now, notify).0
                && seen == Scans.VisitDirs(Setting(), true, old(View()), now, notify).1
    {
      hide Scans.VisitAll, Search, Hashes, Replay, Listed;
      var more;
      ok, seen, stuck := LoadDir(torrentsDir, notify, now, stats);
      if stuck.None? && ok && archiveDir != "" && archiveDir != torrentsDir {
        ok, more, stuck := LoadDir(archiveDir, notify, now, stats);
        seen := seen + more;
      }
    }

    /** A scan of both directories. The first one, quiet and on an empty store, emits nothing; what it
        loads is what the scheduler starts from. A notifying scan tells all it changes. Where no call
        fails, it is the skipping scan. */
    method ScanDir(notify: bool, now: int, stats: nat) returns (ok: bool, stuck: Option<string>)
      requires Valid()
      modifies this`byPath, this`loadedMeta, this`failedMeta, this`events, this`start, fs
      ensures Valid() && (notify && old(LogRight()) ==> LogRight())
      ensures stuck.Some? ==> Searching(stuck.value, stats)
      ensures !notify && old(byPath) == map[] ==> events == old(events)
      ensures !notify && old(byPath) == map[] && old(events) == [] ==> LogRight()
      ensures notify ==> start == old(start)
      ensures fs.reliable && stuck.None? ==> ok && View() == Scans.ScanDir(Setting(), true, old(View()), now, notify)
    {
      hide Scans.VisitDirs, Scans.RemoveAll, Search, Hashes, Replay, InfosOf;
      var seen;
      ok, seen, stuck := LoadDirs(notify, now, stats);
      InfosWithout(byPath, {});
      if stuck.None? && ok {
        RemoveMissing(seen, notify);
      }
      if !notify {
        start := Hashes(Infos());
        ReplayNothing(start);
      }
    }

    /** Fingerprints without the new path and, once the old file is gone, without the old one. */
    static function Dropped(m: map<string, Meta>, oldPath: string, newPath: string, done: bool): map<string, Meta> {
      m - (if done then {oldPath, newPath} else {newPath})
    }

    /** Fingerprints go at the new path, at the old one when its file is gone, and nowhere else. */
    static lemma DroppedExactly(m: map<string, Meta>, oldPath: string, newPath: string, done: bool, p: string)
      ensures p in Dropped(m, oldPath, newPath, done) <==> p in m && p != newPath && !(done && p == oldPath)
      ensures p in Dropped(m, oldPath, newPath, done) ==> Dropped(m, oldPath, newPath, done)[p] == m[p]
    {
    }

    method CopyOrLink(src: string, dst: string) returns (e: Errno)
      requires fs.Valid()
      modifies fs
      ensures fs.Valid() && fs.Recorded() && (src in old(fs.files) ==> fs.KeptAllAlong(src, dst))
      ensures e.Ok? ==> src in old(fs.files) && dst !in old(fs.files) && dst in fs.files
                        && fs.files[dst].content == old(fs.files)[src].content
      ensures fs.files - {dst} == old(fs.files) - {dst}
      ensures dst in old(fs.files) ==> fs.files == old(fs.files)
      ensures src in old(fs.files) && dst !in old(fs.files) && !fs.barred(dst) ==>
                var locked := old(fs.files)[src].locked;
                && (e.Ok? <==> !fs.fails(old(fs.calls)) || CopyDone(locked, fs.fails, old(fs.calls) + 1))
                && (e.Ok? ==> fs.calls == old(fs.calls) + if fs.fails(old(fs.calls)) then 5 else 1)
                && (!e.Ok? ==> (dst in fs.files <==> CopyStays(locked, fs.fails, old(fs.calls) + 1)))
      ensures e.Ok? && fs.reliable ==> fs.files == old(fs.files)[dst := old(fs.files)[src]]
    {
      e := fs.Link(src, dst);
      if e.Ok? {
        NewKeeps(old(fs.files), src, dst, old(fs.files)[src]);
        assert fs.files - {dst} == old(fs.files) - {dst};
        return;
      }
      e := fs.CopyFile(src, dst);
    }

    /** The entries in the middle of a transfer: the torrent at its new path, perhaps still at the old. */
    ghost predicate Between(oldPath: string, newPath: string, t: Torrent)
      reads this, t, byPath.Values
    {
      && loadedMeta.Keys <= byPath.Keys && t.path == newPath && newPath in byPath && byPath[newPath] == t
      && forall p :: p in byPath && p != oldPath && p != newPath ==> byPath[p] != t && byPath[p].path == p
    }

    method Enter(oldPath: string, newPath: string, t: Torrent)
      requires Valid() && t.path == oldPath
      modifies this`byPath, this`loadedMeta, this`failedMeta, this`pendingLoads, t
      ensures Between(oldPath, newPath, t) && Infos() == old(Infos())[newPath := t.Says()]
      ensures pendingLoads == old(pendingLoads) - {oldPath, newPath} && failedMeta == old(failedMeta) - {newPath}
      ensures loadedMeta - {newPath} == old(loadedMeta) - {newPath}
      ensures fs.reliable && newPath in fs.files ==> loadedMeta == old(loadedMeta)[newPath := fs.files[newPath].meta]
    {
      hide InfosOf;
      pendingLoads := pendingLoads - {oldPath, newPath};
      InfosWith(byPath, newPath, t);
      byPath := byPath[newPath := t];
      t.path := newPath;
      RecordLoadedMeta(newPath);
      KeysWithout(loadedMeta, old(loadedMeta), newPath);
    }

    /** The torrent stays at its new path when the old file is gone, and goes back when it is not. */
    method Settle(oldPath: string, newPath: string, t: Torrent, removed: bool)
      requires Between(oldPath, newPath, t) && oldPath != newPath
      requires fs.Valid() && ListsSets(order)
      modifies this`byPath, this`loadedMeta, this`failedMeta, t
      ensures Valid() && t.path == if removed then newPath else oldPath
      ensures t.path in byPath && byPath[t.path] == t
      ensures Infos() == Moved(old(Infos()), oldPath, newPath, t.path, t.Says())
      ensures loadedMeta == old(loadedMeta) - {if removed then oldPath else newPath}
      ensures failedMeta == if removed then old(failedMeta) - {oldPath} else old(failedMeta)
    {
      hide InfosOf, Moved;
      InfosMoved(byPath, oldPath, newPath, if removed then newPath else oldPath, t);
      if !removed {
        byPath := byPath - {newPath};
        loadedMeta := loadedMeta - {newPath};
        t.path := oldPath;
        byPath := byPath[oldPath := t];
      } else {
        byPath := byPath - {oldPath};
        loadedMeta := loadedMeta - {oldPath};
        failedMeta := failedMeta - {oldPath};
      }
      assert byPath == (old(byPath) - {oldPath, newPath})[t.path := t];
    }

    /** The end of a transfer: the old file goes, or else the entries and the new file do. */
    method LeaveOldPath(oldPath: string, newPath: string, t: Torrent, ghost was: map<string, File>) returns (e: Errno)
      requires Between(oldPath, newPath, t) && fs.Valid() && ListsSets(order) && oldPath in was && newPath !in was
      requires newPath in fs.files && fs.files - {newPath} == was && fs.files[newPath].content == was[oldPath].content
      modifies this`byPath, this`loadedMeta, this`failedMeta, t, fs
      ensures Valid() && t.path == (if e.Ok? then newPath else oldPath) && t.path in byPath && byPath[t.path] == t
      ensures Infos() == Moved(old(Infos()), oldPath, newPath, t.path, t.Says())
      ensures loadedMeta == old(loadedMeta) - {if e.Ok? then oldPath else newPath}
      ensures failedMeta == if e.Ok? then old(failedMeta) - {oldPath} else old(failedMeta)
      ensures fs.Recorded()
      ensures forall i :: |old(fs.trace)| <= i < |fs.trace| ==> Keeps(was, oldPath, newPath, fs.trace[i])
      ensures e.Ok? ==> newPath in fs.files && fs.files[newPath].content == was[oldPath].content
                        && fs.files - {newPath} == was - {oldPath}
      ensures !e.Ok? ==> fs.files - {newPath} == was
      ensures e.Ok? <==> !fs.fails(old(fs.calls))
      ensures e.Ok? ==> fs.files == old(fs.files) - {oldPath}
      ensures !e.Ok? ==> (newPath in fs.files <==> fs.fails(old(fs.calls) + 1))
    {
      hide Keeps, Moved, Between, InfosOf;
      SourceRemoved(was, fs.files, oldPath, newPath);
      e := fs.Remove(oldPath);
      Settle(oldPath, newPath, t, e.Ok?);
      if !e.Ok? {
        var cleaned := fs.Remove(newPath);
      }
    }

    /** The transfer from the moment the file is at both paths. */
    method CommitTransfer(oldPath: string, newPath: string, t: Torrent, ghost was: map<string, File>)
      returns (e: Errno, ghost at: string)
      requires Valid() && t.path == oldPath && oldPath in was && newPath !in was
      requires newPath in fs.files && fs.files - {newPath} == was && fs.files[newPath].content == was[oldPath].content
      modifies this`byPath, this`loadedMeta, this`failedMeta, this`pendingLoads, t, fs
      ensures Valid() && t.path == at == (if e.Ok? then newPath else oldPath) && at in byPath && byPath[at] == t
      ensures Infos() == Moved(old(Infos()), oldPath, newPath, at, t.Says())
      ensures pendingLoads == old(pendingLoads) - {oldPath, newPath}
      ensures failedMeta == Dropped(old(failedMeta), oldPath, newPath, e.Ok?)
      ensures e.Ok? && fs.reliable ==>
                loadedMeta == old(loadedMeta)[newPath := old(fs.files)[newPath].meta] - {oldPath}
      ensures loadedMeta - {newPath} == Dropped(old(loadedMeta), oldPath, newPath, e.Ok?)
      ensures fs.Recorded()
      ensures forall i :: |old(fs.trace)| <= i < |fs.trace| ==> Keeps(was, oldPath, newPath, fs.trace[i])
      ensures e.Ok? ==> newPath in fs.files && fs.files[newPath].content == was[oldPath].content
                        && fs.files - {newPath} == was - {oldPath}
      ensures !e.Ok? ==> fs.files - {newPath} == was
      ensures e.Ok? <==> !fs.fails(old(fs.calls))
      ensures e.Ok? ==> fs.files == old(fs.files) - {oldPath}
      ensures !e.Ok? ==> (newPath in fs.files <==> fs.fails(old(fs.calls) + 1))
    {
      hide Keeps, Moved, Between, InfosOf, Dropped;
      Enter(oldPath, newPath, t);
      ghost var entered := loadedMeta;
      e := LeaveOldPath(oldPath, newPath, t, was);
      at := t.path;
      DroppedTwice(old(failedMeta), failedMeta, old(loadedMeta), entered, loadedMeta, oldPath, newPath, e.Ok?);
      MovedOnce(old(Infos()), oldPath, newPath, at, t.Says());
    }

    /** Moves the file of `t`; the entries follow, and follow back when the old file cannot be removed.
        `began` tells that the file was at both paths, `at` is where the torrent is in the end. */
    method TransferTorrentFile(oldPath: string, newPath: string, t: Torrent)
      returns (e: Errno, ghost began: bool, ghost at: string)
      requires Valid() && t.path == oldPath
      modifies this`byPath, this`loadedMeta, this`failedMeta, this`pendingLoads, t, fs
      ensures Valid() && t.path == at && (e.Ok? ==> began)
      ensures !began ==> at == oldPath && byPath == old(byPath) && pendingLoads == old(pendingLoads)
                         && loadedMeta == old(loadedMeta) && failedMeta == old(failedMeta)
      ensures began ==> pendingLoads == old(pendingLoads) - {oldPath, newPath}
                        && failedMeta == Dropped(old(failedMeta), oldPath, newPath, e.Ok?)
                        && loadedMeta - {newPath} == Dropped(old(loadedMeta), oldPath, newPath, e.Ok?)
      ensures began ==> at == (if e.Ok? then newPath else oldPath) && oldPath != newPath && at in byPath
                        && byPath[at] == t && Infos() == Moved(old(Infos()), oldPath, newPath, at, t.Says())
      ensures fs.Recorded() && (oldPath in old(fs.files) ==> fs.KeptAllAlong(oldPath, newPath))
      ensures e.Ok? ==> oldPath in old(fs.files) && newPath !in old(fs.files) && newPath in fs.files
                        && fs.files[newPath].content == old(fs.files)[oldPath].content
                        && fs.files - {newPath} == old(fs.files) - {oldPath}
      ensures !e.Ok? ==> fs.files - {newPath} == old(fs.files) - {newPath}
      ensures newPath in old(fs.files) ==> fs.files == old(fs.files)
      ensures oldPath in old(fs.files) && newPath !in old(fs.files) && !fs.barred(newPath) ==>
                var locked := old(fs.files)[oldPath].locked;
                && (e.Ok? <==> MoveDone(locked, fs.fails, old(fs.calls)))
                && (!e.Ok? && newPath in fs.files <==> MoveLeavesCopy(locked, fs.fails, old(fs.calls)))
      ensures e.Ok? && fs.reliable ==>
                View() == Scans.Transferred(old(View()), oldPath, newPath, t.Says(), old(fs.files)[oldPath].meta)
      ensures Hashes(Infos()) == Hashes(old(Infos())) <==>
                !began || (t.hash in Hashes(old(Infos()))
                           && Spare(old(Infos()), oldPath, newPath, oldPath, t.hash)
                           && Spare(old(Infos()), oldPath, newPath, newPath, t.hash))
    {
      hide Keeps, Hashes, Spare, Moved, InfosOf, Dropped, CopyDone, CopyStays, MoveDone, MoveLeavesCopy;
      began, at := false, oldPath;
      ghost var was, infos := fs.files, Infos();
      if oldPath in was {
        MoveByParts(was[oldPath].locked, fs.fails, fs.calls);
      }
      e := CopyOrLink(oldPath, newPath);
      if !e.Ok? {
        return;
      }
      began := true;
      WithoutNew(was, fs.files, newPath);
      ghost var between := fs.files;
      e, at := CommitTransfer(oldPath, newPath, t, was);
      if e.Ok? && fs.reliable {
        SameTransfer(was, between, old(loadedMeta), old(failedMeta), oldPath, newPath);
      }
      TransferKeepsHashesExactly(infos, oldPath, newPath, at, t.Says());
    }

    static lemma SameTransfer(was: map<string, File>, between: map<string, File>, loaded: map<string, Meta>,
                              failed: map<string, Meta>, oldPath: string, newPath: string)
      requires oldPath in was && newPath !in was && between == was[newPath := was[oldPath]]
      ensures between - {oldPath} == (was - {oldPath})[newPath := was[oldPath].(meta := was[oldPath].meta)]
      ensures loaded[newPath := was[oldPath].meta] - {oldPath} == (loaded - {oldPath})[newPath := was[oldPath].meta]
      ensures Dropped(failed, oldPath, newPath, true) == failed - {oldPath, newPath}
    {
      assert oldPath != newPath;
      assert was[oldPath].(meta := was[oldPath].meta) == was[oldPath];
    }

    static lemma DroppedTwice(failed: map<string, Meta>, failed2: map<string, Meta>, loaded: map<string, Meta>,
                              entered: map<string, Meta>, loaded2: map<string, Meta>,
                              oldPath: string, newPath: string, done: bool)
      requires failed2 == if done then failed - {newPath} - {oldPath} else failed - {newPath}
      requires entered - {newPath} == loaded - {newPath}
      requires loaded2 == entered - {if done then oldPath else newPath}
      ensures failed2 == Dropped(failed, oldPath, newPath, done)
      ensures loaded2 - {newPath} == Dropped(loaded, oldPath, newPath, done)
    {
      assert entered - {newPath} - {oldPath} == entered - {oldPath} - {newPath};
    }

    /** Every entry's file is there, as after a scan that nothing has overtaken. */
    predicate NoneStale()
      reads this`byPath, fs`files
    {
      forall p :: p in byPath ==> p in fs.files
    }

    /** The torrent's path leads to an entry of its hash. */
    predicate Entered(t: Torrent)
      reads this`byPath, t
    {
      t.path in byPath && byPath[t.path].hash == t.hash
    }

    lemma TransferIsClean(infos: map<string, Info>, oldPath: string, newPath: string, info: Info)
      requires oldPath in infos && infos[oldPath].hash == info.hash && newPath !in infos
      ensures info.hash in Hashes(infos)
      ensures Spare(infos, oldPath, newPath, oldPath, info.hash) && Spare(infos, oldPath, newPath, newPath, info.hash)
    {
      assert infos[oldPath].hash in Hashes(infos);
    }

    /** Moves the file of `t` into `dir` under a name that is free. */
    method TransferInto(dir: string, t: Torrent, stats: nat) returns (dest: Option<string>, ended: bool)
      requires Valid()
      modifies this`byPath, this`loadedMeta, this`failedMeta, this`pendingLoads, t, fs
      ensures Valid() && fs.Recorded()
      ensures !ended ==> dest.None? && View() == old(View())
                         && Search(fs.files, fs.barred, dir, Base(t.path), stats).None?
      ensures dest.Some? ==> t.path == dest.value && dest.value !in old(fs.files)
                             && t.path in byPath && byPath[t.path] == t
      ensures dest.None? ==> t.path == old(t.path)
      ensures fs.reliable && ended && old(t.path) in old(fs.files) ==>
                dest == Some(FirstFree(old(fs.files), fs.barred, dir, Base(old(t.path))))
      ensures forall p :: p in old(fs.files) && p != old(t.path) ==> p in fs.files && fs.files[p] == old(fs.files)[p]
      ensures old(LogRight()) && old(NoneStale()) && old(Entered(t)) ==> LogRight()
    {
      hide Hashes, Spare, Moved, Keeps, Candidate, Search, FirstFree;
      var made := fs.MkdirAll(dir);
      if !made {
        return None, true;
      }
      var to := fs.UniquePath(dir, Base(t.path), stats);
      if to.None? {
        return None, false;
      }
      FoundFirst(fs.files, fs.barred, dir, Base(t.path), stats);
      if NoneStale() && Entered(t) {
        TransferIsClean(Infos(), t.path, to.value, t.Says());
      }
      ghost var was, from := fs.files, t.path;
      var e, began, at := TransferTorrentFile(t.path, to.value, t);
      OthersStay(was, fs.files, from, to.value, e.Ok?);
      dest, ended := if e.Ok? then to else None, true;
    }

    /** Moves a torrent that keeps failing to the archive directory; None is an error. */
    method ArchiveTorrent(t: Torrent, stats: nat) returns (path: Option<string>, ended: bool)
      requires Valid()
      modifies this`byPath, this`loadedMeta, this`failedMeta, this`pendingLoads, t, fs
      ensures Valid() && fs.Recorded()
      ensures !ended ==> path.None? && View() == old(View())
                         && Search(fs.files, fs.barred, archiveDir, Base(t.path), stats).None?
      ensures t.path == if path.Some? then path.value else old(t.path)
      ensures archiveDir == "" ==> path.None? && ended
      ensures archiveDir != "" && Below(archiveDir, old(t.path)) ==>
                path == Some(old(t.path)) && ended && byPath == old(byPath)
      ensures fs.reliable && ended && archiveDir != "" && !Below(archiveDir, old(t.path))
              && old(t.path) in old(fs.files) ==>
                path == Some(FirstFree(old(fs.files), fs.barred, archiveDir, Base(old(t.path))))
      ensures forall p :: p in old(fs.files) && p != old(t.path) ==> p in fs.files && fs.files[p] == old(fs.files)[p]
      ensures old(LogRight()) && old(NoneStale()) && old(Entered(t)) ==> LogRight()
    {
      if archiveDir == "" {
        return None, true;
      }
      if Below(archiveDir, t.path) {
        return Some(t.path), true;
      }
      path, ended := TransferInto(archiveDir, t, stats);
    }

    /** Moves a torrent that has recovered back to the torrents directory. */
    method RestoreTorrent(t: Torrent, stats: nat) returns (path: Option<string>, ended: bool)
      requires Valid()
      modifies this`byPath, this`loadedMeta, this`failedMeta, this`pendingLoads, t, fs
      ensures Valid() && fs.Recorded()
      ensures !ended ==> path.None? && View() == old(View())
                         && Search(fs.files, fs.barred, torrentsDir, Base(t.path), stats).None?
      ensures t.path == if path.Some? then path.value else old(t.path)
      ensures torrentsDir == "" ==> path.None? && ended
      ensures torrentsDir != "" && !Below(archiveDir, old(t.path)) ==>
                path == Some(old(t.path)) && ended && byPath == old(byPath)
      ensures fs.reliable && ended && torrentsDir != "" && Below(archiveDir, old(t.path))
              && old(t.path) in old(fs.files) ==>
                path == Some(FirstFree(old(fs.files), fs.barred, torrentsDir, Base(old(t.path))))
      ensures forall p :: p in old(fs.files) && p != old(t.path) ==> p in fs.files && fs.files[p] == old(fs.files)[p]
      ensures old(LogRight()) && old(NoneStale()) && old(Entered(t)) ==> LogRight()
    {
      if torrentsDir == "" {
        return None, true;
      }
      if !Below(archiveDir, t.path) {
        return Some(t.path), true;
      }
      path, ended := TransferInto(torrentsDir, t, stats);
    }

    method ScheduleLoad(path: string) returns (id: nat)
      modifies this`pendingLoads, this`nextLoadID
      ensures id == nextLoadID == old(nextLoadID) + 1 && pendingLoads == old(pendingLoads)[path := id]
    {
      nextLoadID := nextLoadID + 1;
      id := nextLoadID;
      pendingLoads := pendingLoads[path := id];
    }

    method CancelPendingLoad(path: string)
      modifies this`pendingLoads
      ensures pendingLoads == old(pendingLoads) - {path}
    {
      pendingLoads := pendingLoads - {path};
    }

    /** The timer of a scheduled load: only the last one scheduled and not cancelled loads the path. */
    method FireLoad(path: string, id: nat, now: int, stats: nat) returns (loads: bool, ended: bool)
      requires Valid()
      modifies this`byPath, this`loadedMeta, this`failedMeta, this`events, this`pendingLoads, fs
      ensures Valid() && (old(LogRight()) ==> LogRight())
      ensures loads <==> path in old(pendingLoads) && old(pendingLoads)[path] == id
      ensures !ended ==> loads && View() == old(View()) && Searching(path, stats)
      ensures loads ==> Handled(path) && pendingLoads == old(pendingLoads) - {path}
      ensures !loads ==> byPath == old(byPath) && events == old(events) && pendingLoads == old(pendingLoads)
    {
      hide Search;
      loads, ended := path in pendingLoads && pendingLoads[path] == id, true;
      if loads {
        pendingLoads := pendingLoads - {path};
        ended := LoadFile(path, now, stats);
      }
    }
  }

  // ----- A run that loses a hash -----

  const FIRST := "/t/x.torrent"
  const SECOND := "/a/x.torrent"

  function Parse(content: string): Option<Info> {
    if content == "one" then Some(Info(1, [])) else if content == "two" then Some(Info(2, [])) else None
  }

  function TwoFiles(): map<string, File> {
    map[FIRST := File("one", Meta(3, 0), false), SECOND := File("two", Meta(3, 0), false)]
  }

  function TwoInfos(): map<string, Info> {
    map[FIRST := Info(1, []), SECOND := Info(2, [])]
  }

  /** The two torrents are loaded and nothing has gone wrong so far. */
  ghost predicate HoldsTwo(s: Store)
    reads s, s.fs, s.byPath.Values
  {
    && s.Valid() && s.LogRight() && s.fs.reliable && s.fs.files == TwoFiles() && s.Infos() == TwoInfos()
    && s.decode == Parse
  }

  lemma LoadingOne(env: Scans.Env, st: Scans.State, path: string)
    requires env.decode == Parse && st.files == TwoFiles() && (path == FIRST || path == SECOND)
    ensures Scans.LoadOne(env, st, 0, true, path).byPath == st.byPath[path := TwoInfos()[path]]
    ensures Scans.LoadOne(env, st, 0, true, path).files == TwoFiles()
  {
    hide LoadEvents;
  }

  method LoadTwo(order: set<string> -> seq<string>) returns (s: Store)
    requires ListsSets(order)
    ensures HoldsTwo(s)
  {
    hide Replay, Hashes, Scans.LoadOne, InfosOf, Parse;
    var fs := new FileSystem(TwoFiles(), p => false, k => false, true);
    s := new Store(fs, "/t", "/a", Parse, order);
    InfosWithout(map[], {});
    LoadingOne(s.Setting(), s.View(), FIRST);
    OneLoads();
    var ended := s.LoadFile(FIRST, 0, 0);
    LoadingOne(s.Setting(), s.View(), SECOND);
    ended := s.LoadFile(SECOND, 0, 0);
  }

  lemma OneLoads()
    ensures forall p :: p in TwoFiles() ==> Parse(TwoFiles()[p].content).Some?
    ensures FIRST in TwoFiles() && SECOND in TwoFiles()
    ensures map[][FIRST := TwoInfos()[FIRST]][SECOND := TwoInfos()[SECOND]] == TwoInfos()
  {
  }

  /** The file of one torrent vanishes, and before a scan the other torrent is moved to its path: the hash
      is lost and the log is wrong from then on. */
  method StaleEntryRun(s: Store)
    requires HoldsTwo(s)
    modifies s, s.fs, s.byPath.Values
    ensures s.Valid() && Hashes(s.Infos()) == {1} && Replay(s.start, s.events) == {1, 2} && !s.LogRight()
  {
    hide Replay, MoveDone, MoveLeavesCopy, Keeps, Spare, Parse, IsTorrentPath;
    TwoHashes();
    var vanished := s.fs.Remove(SECOND);
    s.fs.AllGoesWell(s.fs.calls);
    InfosWithout(s.byPath, {});
    var e, began, at := s.TransferTorrentFile(FIRST, SECOND, s.byPath[FIRST]);
  }

  lemma TwoHashes()
    ensures Hashes(TwoInfos()) == {1, 2}
    ensures Hashes(Moved(TwoInfos(), FIRST, SECOND, SECOND, Info(1, []))) == {1}
  {
    var m := Moved(TwoInfos(), FIRST, SECOND, SECOND, Info(1, []));
    assert m == map[SECOND := Info(1, [])] by {
      assert TwoInfos() - {FIRST, SECOND} == map[];
    }
    assert m[SECOND].hash in Hashes(m);
    assert TwoInfos()[FIRST].hash in Hashes(TwoInfos()) && TwoInfos()[SECOND].hash in Hashes(TwoInfos());
  }

  // ----- A run that forgets a file -----

  lemma FirstIsTorrent()
    ensures IsTorrentPath(FIRST) && RightIn("/t", FIRST)
  {
    hide LastIndex;
    var name := "x.torrent";
    assert FIRST == Join("/t", name);
    BaseOfJoin("/t", name);
    assert name[1] == '.' && Ext(name) == ".torrent";
    assert FIRST[2] == '/' && Dir(FIRST) == "/t";
  }

  const LOCKED := File("one", Meta(3, 0), true)
  const OPEN := LOCKED.(locked := false)

  /** A scan finds the only file locked; nothing else fails. */
  method ScanLocked(order: set<string> -> seq<string>) returns (s: Store)
    requires ListsSets(order)
    ensures fresh(s) && fresh(s.fs) && s.Valid() && s.fs.reliable
    ensures s.Setting() == Scans.Env("/t", "", Parse, order, Scans.LinkedInto(s.fs.barred, ""))
    ensures s.View() == Scans.State(map[FIRST := LOCKED], map[], map[], map[FIRST := LOCKED.meta], [])
  {
    hide Replay, Hashes, InfosOf, Scans.ScanDir;
    FirstIsTorrent();
    var fs := new FileSystem(map[FIRST := LOCKED], p => false, k => false, true);
    s := new Store(fs, "/t", "", Parse, order);
    Scans.LockedFileIsForgotten(s.Setting(), FIRST, LOCKED, Info(1, []), 0, 1);
    assert LOCKED.(locked := true) == LOCKED;
    var ok, stuck := s.ScanDir(true, 0, 0);
  }

  /** From then on the file can be read, and yet no scan loads the torrent, as the plain scan does at once. */
  method LockedFileRun(order: set<string> -> seq<string>) returns (s: Store)
    requires ListsSets(order)
    ensures s.Valid() && s.fs.files == map[FIRST := OPEN] && s.Infos() == map[]
    ensures Scans.ScanDir(s.Setting(), false, s.View(), 1, true).byPath == map[FIRST := Info(1, [])]
  {
    hide Replay, Hashes, InfosOf, Scans.ScanDir;
    FirstIsTorrent();
    s := ScanLocked(order);
    Scans.LockedFileIsForgotten(s.Setting(), FIRST, LOCKED, Info(1, []), 0, 1);
    assert LOCKED.(locked := true) == LOCKED;
    s.fs.Chmod(FIRST, false);
    assert s.fs.files == map[FIRST := OPEN];
    var ok, stuck := s.ScanDir(true, 1, 0);
  }
}
