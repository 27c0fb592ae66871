/** The periodic scan: it skips a file whose size and modification time are those of its last load or
    failure. Against it stands the plain scan, which reads every file every time. Reading a locked file
    fails. Time and the choices of the file system are parameters. */
module Scans {
  import opened Numerals
  import opened Bandwidth
  import opened Files
  import opened Entries

  const ARCHIVE_GRACE_PERIOD := 2_000_000_000

  /** What the two scans share: the directories, the parser, the order in which names are listed, and
      where the move to the archive puts a file. */
  datatype Env = Env(
    torrentsDir: string, archiveDir: string, decode: string -> Option<Info>,
    order: set<string> -> seq<string>, archive: (map<string, File>, string) -> (string, Meta))

  /** What a file of a path and fingerprint says. */
  type Contents = (string, Meta) -> string

  datatype State = State(
    files: map<string, File>, byPath: map<string, Info>,
    loadedMeta: map<string, Meta>, failedMeta: map<string, Meta>, events: seq<Event>)

  datatype Step =
    | Change(files: map<string, File>)
    | Scan(now: int, notify: bool)
    | Load(path: string, now: int)
    | Forget(path: string)
    | Transfer(oldPath: string, newPath: string, info: Info, meta: Meta)
    | Overwrite(path: string, now: int, files: map<string, File>)

  const EMPTY := State(map[], map[], map[], map[], [])

  // ----- One file -----

  function Emit(st: State, notify: bool, events: seq<Event>): State {
    if notify then st.(events := st.events + events) else st
  }

  function Remove(st: State, notify: bool, path: string): State {
    Emit(st, notify, RemoveEvents(st.byPath, path))
      .(byPath := st.byPath - {path}, loadedMeta := st.loadedMeta - {path}, failedMeta := st.failedMeta - {path})
  }

  /** The entry and the fingerprint of the file as it is now, if it is still there. */
  function Enter(st: State, notify: bool, path: string, info: Info): State {
    Emit(st, notify, LoadEvents(st.byPath, path, info))
      .(byPath := st.byPath[path := info], failedMeta := st.failedMeta - {path},
        loadedMeta := if path in st.files then st.loadedMeta[path := st.files[path].meta] else st.loadedMeta)
  }

  predicate Recent(now: int, meta: Meta) {
    now - meta.modTime < ARCHIVE_GRACE_PERIOD
  }

  /** A file that cannot be loaded stays where it is. */
  predicate LeavesBadFiles(env: Env, p: string) {
    env.archiveDir == "" || Below(env.archiveDir, p)
  }

  /** handleLoadFailure for a file that is there; its events do not depend on the kind of scan. */
  function Fail(env: Env, st: State, now: int, path: string): State
    requires path in st.files
  {
    var meta := st.files[path].meta;
    if LeavesBadFiles(env, path) then st.(failedMeta := st.failedMeta[path := meta])
    else if Recent(now, meta) then st
    else
      var (dest, destMeta) := env.archive(st.files, path);
      var moved := (st.files - {path})[dest := st.files[path].(meta := destMeta)];
      Remove(st.(files := moved, failedMeta := st.failedMeta[dest := destMeta]), true, path)
  }

  /** What reading the file gives. */
  function Read(env: Env, file: File): Option<Info> {
    if file.locked then None else env.decode(file.content)
  }

  /** loadFile, or loadFileQuiet when not notifying. */
  function LoadOne(env: Env, st: State, now: int, notify: bool, path: string): State {
    if path !in st.files then Remove(st, true, path)
    else if Read(env, st.files[path]).Some? then Enter(st, notify, path, Read(env, st.files[path]).value)
    else Fail(env, st, now, path)
  }

  /** A load that reads the file, and before it looks at its fingerprint the files become `files`. */
  function Overtaken(env: Env, st: State, now: int, path: string, files: map<string, File>): State {
    var next := st.(files := files);
    if path !in st.files then Remove(next, true, path)
    else if Read(env, st.files[path]).Some? then Enter(next, true, path, Read(env, st.files[path]).value)
    else if path in files then Fail(env, next, now, path)
    else next
  }

  predicate Unchanged(st: State, path: string) {
    && path in st.files
    && ((path in st.loadedMeta && st.loadedMeta[path] == st.files[path].meta)
        || (path in st.failedMeta && st.failedMeta[path] == st.files[path].meta))
  }

  function Visit(env: Env, fast: bool, st: State, now: int, notify: bool, path: string): State {
    if fast && Unchanged(st, path) then st else LoadOne(env, st, now, notify, path)
  }

  // ----- Scans and runs -----

  function VisitAll(env: Env, fast: bool, st: State, now: int, notify: bool, paths: seq<string>): State
    decreases |paths|
  {
    if paths == [] then st
    else VisitAll(env, fast, Visit(env, fast, st, now, notify, paths[0]), now, notify, paths[1..])
  }

  function RemoveAll(st: State, notify: bool, paths: seq<string>): State
    decreases |paths|
  {
    if paths == [] then st else RemoveAll(Remove(st, notify, paths[0]), notify, paths[1..])
  }

  lemma VisitNext(env: Env, fast: bool, st: State, now: int, notify: bool, paths: seq<string>, i: nat)
    requires i < |paths|
    ensures VisitAll(env, fast, st, now, notify, paths[i..])
            == VisitAll(env, fast, Visit(env, fast, st, now, notify, paths[i]), now, notify, paths[i + 1..])
  {
    assert paths[i..][0] == paths[i] && paths[i..][1..] == paths[i + 1..];
  }

  lemma VisitDone(env: Env, fast: bool, st: State, now: int, notify: bool)
    ensures VisitAll(env, fast, st, now, notify, []) == st
  {
  }

  lemma RemoveNext(st: State, notify: bool, paths: seq<string>, i: nat)
    requires i < |paths|
    ensures RemoveAll(st, notify, paths[i..]) == RemoveAll(Remove(st, notify, paths[i]), notify, paths[i + 1..])
  {
    assert paths[i..][0] == paths[i] && paths[i..][1..] == paths[i + 1..];
  }

  lemma RemoveDone(st: State, notify: bool)
    ensures RemoveAll(st, notify, []) == st
  {
  }

  /** The visits in one directory after the other, and the paths they saw. */
  function VisitDirs(env: Env, fast: bool, st: State, now: int, notify: bool): (State, set<string>) {
    var first := Listed(st.files.Keys, env.torrentsDir);
    var a := VisitAll(env, fast, st, now, notify, env.order(first));
    if env.archiveDir == "" || env.archiveDir == env.torrentsDir then (a, first)
    else
      var second := Listed(a.files.Keys, env.archiveDir);
      (VisitAll(env, fast, a, now, notify, env.order(second)), first + second)
  }

  function ScanDir(env: Env, fast: bool, st: State, now: int, notify: bool): State {
    var (a, seen) := VisitDirs(env, fast, st, now, notify);
    RemoveAll(a, notify, env.order(a.byPath.Keys - seen))
  }

  /** A committed transfer: the file moves, the torrent `info` is entered at its new path with the
      fingerprint `meta` the file has there, and nothing is told. */
  function Transferred(st: State, oldPath: string, newPath: string, info: Info, meta: Meta): State
    requires oldPath in st.files
  {
    State((st.files - {oldPath})[newPath := st.files[oldPath].(meta := meta)],
          Moved(st.byPath, oldPath, newPath, newPath, info),
          (st.loadedMeta - {oldPath})[newPath := meta], st.failedMeta - {oldPath, newPath}, st.events)
  }

  predicate Transferable(st: State, oldPath: string, newPath: string) {
    oldPath in st.files && newPath !in st.files && oldPath != newPath
  }

  function Take(env: Env, fast: bool, st: State, step: Step): State {
    match step
    case Change(files) => st.(files := files)
    case Scan(now, notify) => ScanDir(env, fast, st, now, notify)
    case Load(path, now) => LoadOne(env, st, now, true, path)
    case Forget(path) => Remove(st, true, path)
    case Transfer(oldPath, newPath, info, meta) =>
      if Transferable(st, oldPath, newPath) then Transferred(st, oldPath, newPath, info, meta) else st
    case Overwrite(path, now, files) => Overtaken(env, st, now, path, files)
  }

  function Run(env: Env, fast: bool, st: State, steps: seq<Step>): State
    decreases |steps|
  {
    if steps == [] then st else Run(env, fast, Take(env, fast, st, steps[0]), steps[1..])
  }

  // ----- Refinement -----

  /** Every file says what its path and fingerprint determine. */
  predicate Determined(said: Contents, files: map<string, File>) {
    forall p :: p in files ==> files[p].content == said(p, files[p].meta)
  }

  /** Reading the content at `p` would leave the entry `info` as it is. */
  predicate Tells(env: Env, p: string, content: string, info: Info) {
    env.decode(content) == Some(info) || (env.decode(content) == None && LeavesBadFiles(env, p))
  }

  /** Reading the content at `p` would change nothing that can be seen. */
  predicate Vouched(env: Env, byPath: map<string, Info>, p: string, content: string) {
    if p in byPath then Tells(env, p, content, byPath[p])
    else env.decode(content) == None && LeavesBadFiles(env, p)
  }

  /** The skipping scan's fingerprints are those of contents that need not be read again. */
  predicate Vouches(env: Env, said: Contents, st: State) {
    && (forall p :: p in st.loadedMeta ==> Vouched(env, st.byPath, p, said(p, st.loadedMeta[p])))
    && (forall p :: p in st.failedMeta ==> Vouched(env, st.byPath, p, said(p, st.failedMeta[p])))
  }

  /** The two scans agree on all that can be seen. */
  predicate Agree(f: State, s: State) {
    f.files == s.files && f.byPath == s.byPath && f.events == s.events
  }

  predicate Refines(env: Env, said: Contents, f: State, s: State) {
    Agree(f, s) && Vouches(env, said, f) && Determined(said, f.files)
  }

  // ----- What a load may do -----

  /** The move of the file at `p` puts it under a free name, where nothing need be read. */
  predicate ArchivesWell(env: Env, said: Contents, st: State, p: string)
    requires p in st.files
  {
    var (dest, meta) := env.archive(st.files, p);
    && dest !in st.files && said(dest, meta) == st.files[p].content
    && Vouched(env, st.byPath - {p}, dest, st.files[p].content)
  }

  /** What the failure leaves on record is true of the content. */
  predicate FailFits(env: Env, said: Contents, st: State, now: int, p: string)
    requires p in st.files
  {
    if LeavesBadFiles(env, p) then Vouched(env, st.byPath, p, st.files[p].content)
    else Recent(now, st.files[p].meta) || ArchivesWell(env, said, st, p)
  }

  predicate LoadFits(env: Env, said: Contents, st: State, now: int, p: string) {
    p in st.files && Read(env, st.files[p]).None? ==> FailFits(env, said, st, now, p)
  }

  /** Moreover, what the skipping scan passes by the plain one does not archive. */
  predicate VisitFits(env: Env, said: Contents, st: State, now: int, p: string) {
    && LoadFits(env, said, st, now, p)
    && (Unchanged(st, p) && Read(env, st.files[p]).None? ==>
          LeavesBadFiles(env, p) || Recent(now, st.files[p].meta))
  }

  lemma RemoveRefines(env: Env, said: Contents, f: State, s: State, notify: bool, path: string)
    requires Refines(env, said, f, s)
    ensures Refines(env, said, Remove(f, notify, path), Remove(s, notify, path))
  {
  }

  lemma EnterRefines(env: Env, said: Contents, f: State, s: State, notify: bool, path: string, info: Info)
    requires Refines(env, said, f, s)
    requires path in f.files ==> Tells(env, path, f.files[path].content, info)
    requires path !in f.files && path in f.loadedMeta ==> Tells(env, path, said(path, f.loadedMeta[path]), info)
    ensures Refines(env, said, Enter(f, notify, path, info), Enter(s, notify, path, info))
  {
  }

  lemma FailRefines(env: Env, said: Contents, f: State, s: State, now: int, path: string)
    requires Refines(env, said, f, s) && path in f.files && FailFits(env, said, f, now, path)
    ensures Refines(env, said, Fail(env, f, now, path), Fail(env, s, now, path))
  {
    var file := f.files[path];
    if !LeavesBadFiles(env, path) && !Recent(now, file.meta) {
      var (dest, destMeta) := env.archive(f.files, path);
      var moved := (f.files - {path})[dest := file.(meta := destMeta)];
      ArchivedRefines(env, said, f, s, path, dest, destMeta, moved);
    }
  }

  lemma ArchivedRefines(env: Env, said: Contents, f: State, s: State, path: string, dest: string, meta: Meta,
                        moved: map<string, File>)
    requires Refines(env, said, f, s) && path in f.files && dest !in f.files
    requires said(dest, meta) == f.files[path].content
    requires Vouched(env, f.byPath - {path}, dest, f.files[path].content)
    requires moved == (f.files - {path})[dest := f.files[path].(meta := meta)]
    ensures Refines(env, said, Remove(f.(files := moved, failedMeta := f.failedMeta[dest := meta]), true, path),
                    Remove(s.(files := moved, failedMeta := s.failedMeta[dest := meta]), true, path))
  {
    hide RemoveEvents, Vouched, Vouches;
    assert dest != path;
    var g := Remove(f.(files := moved, failedMeta := f.failedMeta[dest := meta]), true, path);
    ArchivedVouches(env, said, f, g, path, dest, meta);
  }

  lemma ArchivedVouches(env: Env, said: Contents, f: State, g: State, path: string, dest: string, meta: Meta)
    requires Vouches(env, said, f) && Vouched(env, f.byPath - {path}, dest, said(dest, meta))
    requires g.byPath == f.byPath - {path} && g.loadedMeta == f.loadedMeta - {path}
    requires g.failedMeta == f.failedMeta[dest := meta] - {path}
    ensures Vouches(env, said, g)
  {
    hide Tells;
  }

  lemma LoadRefines(env: Env, said: Contents, f: State, s: State, now: int, notify: bool, path: string)
    requires Refines(env, said, f, s) && LoadFits(env, said, f, now, path)
    ensures Refines(env, said, LoadOne(env, f, now, notify, path), LoadOne(env, s, now, notify, path))
  {
    hide Refines, Remove, Enter, Fail, FailFits;
    SameFiles(env, said, f, s);
    if path !in f.files {
      RemoveRefines(env, said, f, s, true, path);
    } else if Read(env, f.files[path]).Some? {
      EnterRefines(env, said, f, s, notify, path, Read(env, f.files[path]).value);
    } else {
      FailRefines(env, said, f, s, now, path);
    }
  }

  lemma SameFiles(env: Env, said: Contents, f: State, s: State)
    requires Refines(env, said, f, s)
    ensures f.files == s.files && f.byPath == s.byPath
  {
  }

  /** Skipping a file is right: reading it again would show nothing new. */
  lemma SkipRefines(env: Env, said: Contents, f: State, s: State, now: int, notify: bool, path: string)
    requires Refines(env, said, f, s) && Unchanged(f, path) && VisitFits(env, said, f, now, path)
    ensures Refines(env, said, f, LoadOne(env, s, now, notify, path))
  {
    hide FailFits;
    assert Vouched(env, f.byPath, path, f.files[path].content);
    if Read(env, f.files[path]).Some? {
      assert s.byPath[path := s.byPath[path]] == s.byPath;
      assert LoadEvents(s.byPath, path, s.byPath[path]) == [];
      assert s.events + [] == s.events;
    }
  }

  lemma VisitRefines(env: Env, said: Contents, f: State, s: State, now: int, notify: bool, path: string)
    requires Refines(env, said, f, s) && VisitFits(env, said, f, now, path)
    ensures Refines(env, said, Visit(env, true, f, now, notify, path), Visit(env, false, s, now, notify, path))
  {
    hide Refines, LoadOne, Unchanged, LoadFits;
    if Unchanged(f, path) {
      SkipRefines(env, said, f, s, now, notify, path);
    } else {
      LoadRefines(env, said, f, s, now, notify, path);
    }
  }

  /** Every visit fits, in the order of the skipping scan. */
  predicate VisitsFit(env: Env, said: Contents, st: State, now: int, notify: bool, paths: seq<string>)
    decreases |paths|
  {
    || paths == []
    || (VisitFits(env, said, st, now, paths[0])
        && VisitsFit(env, said, Visit(env, true, st, now, notify, paths[0]), now, notify, paths[1..]))
  }

  lemma {:induction false} VisitAllRefines(env: Env, said: Contents, f: State, s: State, now: int, notify: bool,
                                           paths: seq<string>)
    requires Refines(env, said, f, s) && VisitsFit(env, said, f, now, notify, paths)
    ensures Refines(env, said, VisitAll(env, true, f, now, notify, paths), VisitAll(env, false, s, now, notify, paths))
    decreases |paths|
  {
    hide Refines, Visit, VisitFits;
    if paths == [] {
    } else {
      VisitRefines(env, said, f, s, now, notify, paths[0]);
      VisitAllRefines(env, said, Visit(env, true, f, now, notify, paths[0]),
                      Visit(env, false, s, now, notify, paths[0]),
                      now, notify, paths[1..]);
    }
  }

  lemma {:induction false} RemoveAllRefines(env: Env, said: Contents, f: State, s: State, notify: bool,
                                            paths: seq<string>)
    requires Refines(env, said, f, s)
    ensures Refines(env, said, RemoveAll(f, notify, paths), RemoveAll(s, notify, paths))
    decreases |paths|
  {
    hide Refines, Remove;
    if paths == [] {
    } else {
      RemoveRefines(env, said, f, s, notify, paths[0]);
      RemoveAllRefines(env, said, Remove(f, notify, paths[0]), Remove(s, notify, paths[0]), notify, paths[1..]);
    }
  }

  predicate ScanFits(env: Env, said: Contents, st: State, now: int, notify: bool) {
    var first := env.order(Listed(st.files.Keys, env.torrentsDir));
    var a := VisitAll(env, true, st, now, notify, first);
    && VisitsFit(env, said, st, now, notify, first)
    && (env.archiveDir == "" || env.archiveDir == env.torrentsDir
        || VisitsFit(env, said, a, now, notify, env.order(Listed(a.files.Keys, env.archiveDir))))
  }

  lemma VisitsRefine(env: Env, said: Contents, f: State, s: State, now: int, notify: bool)
    requires Refines(env, said, f, s) && ScanFits(env, said, f, now, notify)
    ensures var (a, seen) := VisitDirs(env, true, f, now, notify);
            var (x, same) := VisitDirs(env, false, s, now, notify);
            Refines(env, said, a, x) && seen == same
  {
    hide Refines, VisitAll, VisitsFit, IsTorrentPath, Listed;
    SameFiles(env, said, f, s);
    var first := Listed(f.files.Keys, env.torrentsDir);
    VisitAllRefines(env, said, f, s, now, notify, env.order(first));
    var a, x := VisitAll(env, true, f, now, notify, env.order(first)),
                VisitAll(env, false, s, now, notify, env.order(first));
    SameFiles(env, said, a, x);
    if !(env.archiveDir == "" || env.archiveDir == env.torrentsDir) {
      VisitAllRefines(env, said, a, x, now, notify, env.order(Listed(a.files.Keys, env.archiveDir)));
    }
  }

  lemma ScanRefines(env: Env, said: Contents, f: State, s: State, now: int, notify: bool)
    requires Refines(env, said, f, s) && ScanFits(env, said, f, now, notify)
    ensures Refines(env, said, ScanDir(env, true, f, now, notify), ScanDir(env, false, s, now, notify))
  {
    hide Refines, ScanFits, VisitDirs, RemoveAll;
    VisitsRefine(env, said, f, s, now, notify);
    var (a, seen) := VisitDirs(env, true, f, now, notify);
    var (x, _) := VisitDirs(env, false, s, now, notify);
    SameFiles(env, said, a, x);
    RemoveAllRefines(env, said, a, x, notify, env.order(a.byPath.Keys - seen));
  }

  lemma TransferRefines(env: Env, said: Contents, f: State, s: State, oldPath: string, newPath: string, info: Info,
                        meta: Meta)
    requires Refines(env, said, f, s) && Transferable(f, oldPath, newPath)
    requires said(newPath, meta) == f.files[oldPath].content && Tells(env, newPath, f.files[oldPath].content, info)
    ensures Refines(env, said, Transferred(f, oldPath, newPath, info, meta),
                    Transferred(s, oldPath, newPath, info, meta))
  {
  }

  /** The fingerprint that a load leaves behind is that of content that tells of the entry, or, if the file
      has gone meanwhile, an older one that does. */
  predicate OverwriteFits(env: Env, said: Contents, st: State, now: int, path: string, files: map<string, File>) {
    && Determined(said, files)
    && (path in st.files ==>
          var read := Read(env, st.files[path]);
          if read.None? then path in files ==> FailFits(env, said, st.(files := files), now, path)
          else if path in files then Tells(env, path, files[path].content, read.value)
          else path in st.loadedMeta ==> Tells(env, path, said(path, st.loadedMeta[path]), read.value))
  }

  lemma OverwriteRefines(env: Env, said: Contents, f: State, s: State, now: int, path: string, files: map<string, File>)
    requires Refines(env, said, f, s) && OverwriteFits(env, said, f, now, path, files)
    ensures Refines(env, said, Overtaken(env, f, now, path, files), Overtaken(env, s, now, path, files))
  {
    hide Remove, Enter, Fail, FailFits, Tells;
    var g, t := f.(files := files), s.(files := files);
    assert Refines(env, said, g, t);
    if path !in f.files {
      RemoveRefines(env, said, g, t, true, path);
    } else if Read(env, f.files[path]).Some? {
      EnterRefines(env, said, g, t, true, path, Read(env, f.files[path]).value);
    } else if path in files {
      FailRefines(env, said, g, t, now, path);
    }
  }

  // ----- When later visits agree -----

  /** The files once all of them can be read. */
  function Unlocked(st: State): State {
    st.(files := map p | p in st.files :: st.files[p].(locked := false))
  }

  ghost predicate VisitsAgree(env: Env, f: State, s: State, p: string) {
    forall now, notify :: Agree(Visit(env, true, f, now, notify, p), Visit(env, false, s, now, notify, p))
  }

  /** Whichever file is visited next, once all can be read, both scans show the same. */
  ghost predicate LaterVisitsAgree(env: Env, f: State, s: State) {
    forall p :: VisitsAgree(env, Unlocked(f), Unlocked(s), p)
  }

  predicate SkipsRightly(env: Env, st: State, p: string) {
    Unchanged(st, p) ==> Vouched(env, st.byPath, p, st.files[p].content)
  }

  /** The archive is elsewhere. */
  ghost predicate Relocates(env: Env) {
    forall files: map<string, File>, p :: p in files ==> env.archive(files, p).0 != p
  }

  /** Later visits agree exactly when every file that would be skipped tells of its entry, or is bad and
      stays where it is. */
  lemma LaterVisitsAgreeExactly(env: Env, f: State, s: State)
    requires Agree(f, s) && Relocates(env)
    ensures LaterVisitsAgree(env, f, s) <==> forall p :: SkipsRightly(env, f, p)
  {
    hide SkipsRightly, VisitsAgree, Relocates, Agree;
    forall p ensures SkipsRightly(env, f, p) <==> VisitsAgree(env, Unlocked(f), Unlocked(s), p) {
      VisitsOfOneAgreeExactly(env, f, s, p);
    }
  }

  lemma VisitsOfOneAgreeExactly(env: Env, f: State, s: State, p: string)
    requires Agree(f, s) && Relocates(env)
    ensures SkipsRightly(env, f, p) <==> VisitsAgree(env, Unlocked(f), Unlocked(s), p)
  {
    hide LoadOne, Tells, Relocates;
    var g, t := Unlocked(f), Unlocked(s);
    if !Unchanged(f, p) {
      forall now, notify ensures Agree(LoadOne(env, g, now, notify, p), LoadOne(env, t, now, notify, p)) {
        LoadsAgree(env, g, t, now, notify, p);
      }
    } else if Vouched(env, f.byPath, p, f.files[p].content) {
      forall now, notify ensures Agree(t, LoadOne(env, t, now, notify, p)) {
        RereadShowsNothing(env, t, now, notify, p);
      }
    } else {
      RereadShowsSomething(env, t, p);
      var now := t.files[p].meta.modTime + ARCHIVE_GRACE_PERIOD;
      assert !Agree(Visit(env, true, g, now, true, p), Visit(env, false, t, now, true, p));
    }
  }

  lemma LoadsAgree(env: Env, f: State, s: State, now: int, notify: bool, p: string)
    requires Agree(f, s)
    ensures Agree(LoadOne(env, f, now, notify, p), LoadOne(env, s, now, notify, p))
  {
    hide Remove, Enter, Fail;
    if p !in f.files {
      RemovesAgree(f, s, true, p);
    } else if Read(env, f.files[p]).Some? {
      EntersAgree(f, s, notify, p, Read(env, f.files[p]).value);
    } else {
      FailsAgree(env, f, s, now, p);
    }
  }

  lemma RemovesAgree(f: State, s: State, notify: bool, p: string)
    requires Agree(f, s)
    ensures Agree(Remove(f, notify, p), Remove(s, notify, p))
  {
  }

  lemma EntersAgree(f: State, s: State, notify: bool, p: string, info: Info)
    requires Agree(f, s)
    ensures Agree(Enter(f, notify, p, info), Enter(s, notify, p, info))
  {
    hide LoadEvents;
  }

  lemma FailsAgree(env: Env, f: State, s: State, now: int, p: string)
    requires Agree(f, s) && p in f.files
    ensures Agree(Fail(env, f, now, p), Fail(env, s, now, p))
  {
    hide Remove, LeavesBadFiles, Recent;
    if !LeavesBadFiles(env, p) && !Recent(now, f.files[p].meta) {
      var (dest, meta) := env.archive(f.files, p);
      var moved := (f.files - {p})[dest := f.files[p].(meta := meta)];
      RemovesAgree(f.(files := moved, failedMeta := f.failedMeta[dest := meta]),
                   s.(files := moved, failedMeta := s.failedMeta[dest := meta]), true, p);
    }
  }

  lemma RereadShowsNothing(env: Env, t: State, now: int, notify: bool, p: string)
    requires p in t.files && !t.files[p].locked && Vouched(env, t.byPath, p, t.files[p].content)
    ensures Agree(t, LoadOne(env, t, now, notify, p))
  {
    if p in t.byPath {
      assert t.byPath[p := t.byPath[p]] == t.byPath;
      assert t.events + [] == t.events;
    }
  }

  lemma RereadShowsSomething(env: Env, t: State, p: string)
    requires Relocates(env) && p in t.files && !t.files[p].locked && !Vouched(env, t.byPath, p, t.files[p].content)
    ensures !Agree(t, LoadOne(env, t, t.files[p].meta.modTime + ARCHIVE_GRACE_PERIOD, true, p))
  {
    hide LoadEvents, RemoveEvents;
    var u := LoadOne(env, t, t.files[p].meta.modTime + ARCHIVE_GRACE_PERIOD, true, p);
    if env.decode(t.files[p].content).Some? {
      assert u.byPath[p] == env.decode(t.files[p].content).value;
    } else {
      assert p !in u.files;
    }
  }

  /** A visit that fails to read a file leaves the scans in agreement, then and at every later visit, exactly
      when what it puts on record is true of the content and the skipping scan passes no file by that the
      plain one archives. */
  lemma FailedVisitFitsExactly(env: Env, said: Contents, f: State, s: State, now: int, notify: bool, p: string)
    requires Refines(env, said, f, s) && Relocates(env)
    requires p in f.files && Read(env, f.files[p]).None? && LandsWell(env, said, f.files, p)
    ensures var g, t := Visit(env, true, f, now, notify, p), Visit(env, false, s, now, notify, p);
            Agree(g, t) && LaterVisitsAgree(env, g, t) <==> VisitFits(env, said, f, now, p)
  {
    var g, t := Visit(env, true, f, now, notify, p), Visit(env, false, s, now, notify, p);
    if VisitFits(env, said, f, now, p) {
      VisitRefines(env, said, f, s, now, notify, p);
      RefinedVisitsAgree(env, said, g, t);
    } else {
      FailureShows(env, said, f, s, now, notify, p);
      if Agree(g, t) {
        LaterVisitsAgreeExactly(env, g, t);
      }
    }
  }

  /** The name in the archive is free, and the fingerprint there determines the content too. */
  predicate LandsWell(env: Env, said: Contents, files: map<string, File>, p: string)
    requires p in files
  {
    env.archive(files, p).0 !in files && said(env.archive(files, p).0, env.archive(files, p).1) == files[p].content
  }

  lemma RefinedVisitsAgree(env: Env, said: Contents, f: State, s: State)
    requires Refines(env, said, f, s) && Relocates(env)
    ensures LaterVisitsAgree(env, f, s)
  {
    hide Vouched, Relocates;
    forall p ensures SkipsRightly(env, f, p) {
    }
    LaterVisitsAgreeExactly(env, f, s);
  }

  lemma FailureShows(env: Env, said: Contents, f: State, s: State, now: int, notify: bool, p: string)
    requires Refines(env, said, f, s) && p in f.files && Read(env, f.files[p]).None?
    requires LandsWell(env, said, f.files, p) && !VisitFits(env, said, f, now, p)
    ensures var g, t := Visit(env, true, f, now, notify, p), Visit(env, false, s, now, notify, p);
            Agree(g, t) ==> exists q :: !SkipsRightly(env, g, q)
  {
    hide Remove, Tells, LeavesBadFiles, Recent, RemoveEvents;
    if Unchanged(f, p) {
      assert Vouched(env, f.byPath, p, f.files[p].content);
      ArchivedGoes(env, s, now, p);
    } else if LeavesBadFiles(env, p) {
      assert !SkipsRightly(env, Visit(env, true, f, now, notify, p), p);
    } else {
      ArchivedIsKnown(env, f, now, p);
      assert !SkipsRightly(env, Visit(env, true, f, now, notify, p), env.archive(f.files, p).0);
    }
  }

  lemma ArchivedGoes(env: Env, s: State, now: int, p: string)
    requires p in s.files && !LeavesBadFiles(env, p) && !Recent(now, s.files[p].meta)
    requires env.archive(s.files, p).0 !in s.files
    ensures p !in Fail(env, s, now, p).files
  {
    hide RemoveEvents;
  }

  lemma ArchivedIsKnown(env: Env, f: State, now: int, p: string)
    requires p in f.files && !LeavesBadFiles(env, p) && !Recent(now, f.files[p].meta)
    requires env.archive(f.files, p).0 !in f.files
    ensures var g, dest := Fail(env, f, now, p), env.archive(f.files, p).0;
            && Unchanged(g, dest) && g.files[dest].content == f.files[p].content && g.byPath == f.byPath - {p}
  {
    hide RemoveEvents;
  }

  /** A transfer keeps the scans together exactly when the content it moves tells of the torrent it enters. */
  lemma TransferRefinesExactly(env: Env, said: Contents, f: State, s: State, oldPath: string, newPath: string,
                               info: Info, meta: Meta)
    requires Refines(env, said, f, s) && Relocates(env) && Transferable(f, oldPath, newPath)
    requires said(newPath, meta) == f.files[oldPath].content
    ensures LaterVisitsAgree(env, Transferred(f, oldPath, newPath, info, meta),
                             Transferred(s, oldPath, newPath, info, meta))
            <==> Tells(env, newPath, f.files[oldPath].content, info)
  {
    var g, t := Transferred(f, oldPath, newPath, info, meta), Transferred(s, oldPath, newPath, info, meta);
    if Tells(env, newPath, f.files[oldPath].content, info) {
      TransferRefines(env, said, f, s, oldPath, newPath, info, meta);
      RefinedVisitsAgree(env, said, g, t);
    } else {
      assert !SkipsRightly(env, g, newPath);
      LaterVisitsAgreeExactly(env, g, t);
    }
  }

  /** So does a load that a change overtakes, exactly when the file as it is then tells of the entry made of
      what was read; a file that has gone is not skipped. */
  lemma OvertakenAgreesExactly(env: Env, said: Contents, f: State, s: State, now: int, path: string,
                               files: map<string, File>)
    requires Refines(env, said, f, s) && Relocates(env) && Determined(said, files)
    requires path in f.files && Read(env, f.files[path]).Some?
    ensures LaterVisitsAgree(env, Overtaken(env, f, now, path, files), Overtaken(env, s, now, path, files))
            <==> (path in files ==> Tells(env, path, files[path].content, Read(env, f.files[path]).value))
  {
    hide LoadEvents, Tells, Relocates;
    var g, t := Overtaken(env, f, now, path, files), Overtaken(env, s, now, path, files);
    forall p | p != path ensures SkipsRightly(env, g, p) {
      assert Unchanged(g, p) ==> Vouched(env, f.byPath, p, files[p].content);
    }
    assert SkipsRightly(env, g, path) <==>
             (path in files ==> Tells(env, path, files[path].content, Read(env, f.files[path]).value));
    LaterVisitsAgreeExactly(env, g, t);
  }

  // ----- Runs -----

  predicate StepFits(env: Env, said: Contents, st: State, step: Step) {
    match step
    case Change(files) => Determined(said, files)
    case Scan(now, notify) => ScanFits(env, said, st, now, notify)
    case Load(path, now) => LoadFits(env, said, st, now, path)
    case Forget(_) => true
    case Transfer(oldPath, newPath, info, meta) =>
      Transferable(st, oldPath, newPath) ==>
        var content := st.files[oldPath].content;
        said(newPath, meta) == content && Tells(env, newPath, content, info)
    case Overwrite(path, now, files) => OverwriteFits(env, said, st, now, path, files)
  }

  /** Every step fits, along the run of the skipping scan. */
  predicate StepsFit(env: Env, said: Contents, st: State, steps: seq<Step>)
    decreases |steps|
  {
    || steps == []
    || (StepFits(env, said, st, steps[0]) && StepsFit(env, said, Take(env, true, st, steps[0]), steps[1..]))
  }

  lemma StepRefines(env: Env, said: Contents, f: State, s: State, step: Step)
    requires Refines(env, said, f, s) && StepFits(env, said, f, step)
    ensures Refines(env, said, Take(env, true, f, step), Take(env, false, s, step))
  {
    hide LoadOne, Remove, ScanDir, Transferred, Vouches, ScanFits, LoadFits, OverwriteFits, Overtaken, Tells;
    match step
    case Change(files) => ChangeRefines(env, said, f, s, files);
    case Scan(now, notify) => ScanRefines(env, said, f, s, now, notify);
    case Load(path, now) => LoadRefines(env, said, f, s, now, true, path);
    case Forget(path) => RemoveRefines(env, said, f, s, true, path);
    case Transfer(oldPath, newPath, info, meta) =>
      if Transferable(s, oldPath, newPath) {
        TransferRefines(env, said, f, s, oldPath, newPath, info, meta);
      }
    case Overwrite(path, now, files) => OverwriteRefines(env, said, f, s, now, path, files);
  }

  lemma ChangeRefines(env: Env, said: Contents, f: State, s: State, files: map<string, File>)
    requires Refines(env, said, f, s) && Determined(said, files)
    ensures Refines(env, said, f.(files := files), s.(files := files))
  {
  }

  lemma {:induction false} RunRefines(env: Env, said: Contents, f: State, s: State, steps: seq<Step>)
    requires Refines(env, said, f, s) && StepsFit(env, said, f, steps)
    ensures Refines(env, said, Run(env, true, f, steps), Run(env, false, s, steps))
    decreases |steps|
  {
    hide Refines, Take, StepFits;
    if steps == [] {
    } else {
      StepRefines(env, said, f, s, steps[0]);
      RunRefines(env, said, Take(env, true, f, steps[0]), Take(env, false, s, steps[0]), steps[1..]);
    }
  }

  /** If along the run every file is determined by its fingerprint and every step fits, then over any sequence
      of file changes, lockings, scans, watched loads, loads overtaken by changes, removals and transfers,
      skipping unchanged files leaves the same hash and announce list per path, the same files and the same
      events as reading them all. */
  lemma SkippingScanRefinesPlainScan(env: Env, said: Contents, steps: seq<Step>)
    requires StepsFit(env, said, EMPTY, steps)
    ensures var f, s := Run(env, true, EMPTY, steps), Run(env, false, EMPTY, steps);
            f.byPath == s.byPath && f.files == s.files && f.events == s.events
  {
    hide Run, StepsFit;
    RunRefines(env, said, EMPTY, EMPTY, steps);
  }

  // ----- The archive of a file system whose links succeed -----

  /** The first free name; where the search for it never ends, any absent name stands for it. */
  ghost function LinkName(files: map<string, File>, barred: string -> bool, dir: string, name: string): string {
    if SearchEnds(files, barred, dir, name) then FirstFree(files, barred, dir, name)
    else
      AbsentName(files, dir, name);
      var i: nat :| Candidate(dir, name, i) !in files;
      Candidate(dir, name, i)
  }

  lemma AbsentName(files: map<string, File>, dir: string, name: string)
    ensures exists i: nat :: Candidate(dir, name, i) !in files
  {
    var i := SomeCandidateIsFree(dir, name, files.Keys, 1);
  }

  /** A link keeps the fingerprint, and uniquePath takes the first free name. */
  ghost function LinkedInto(barred: string -> bool, archiveDir: string):
    (map<string, File>, string) -> (string, Meta)
  {
    (files: map<string, File>, p: string) =>
      if p in files then (LinkName(files, barred, archiveDir, Base(p)), files[p].meta) else ("", Meta(0, 0))
  }

  /** Names are listed once each, the archive is filled by links, and a fingerprint alone tells the content. */
  ghost predicate Links(env: Env, said: Contents, barred: string -> bool) {
    && ListsSets(env.order) && env.archive == LinkedInto(barred, env.archiveDir)
    && forall p, q, meta :: said(p, meta) == said(q, meta)
  }

  lemma LinkNameIsFree(files: map<string, File>, barred: string -> bool, dir: string, name: string)
    ensures LinkName(files, barred, dir, name) !in files
    ensures dir != "" && name != "" ==> Below(dir, LinkName(files, barred, dir, name))
  {
    if SearchEnds(files, barred, dir, name) {
      FirstFreeIsFree(files, barred, dir, name);
      if dir != "" && name != "" {
        FirstFreeIsBelow(files, barred, dir, name);
      }
    }
  }

  /** Where the search ends, a failure moves the file under the first free name. */
  lemma FailLinks(env: Env, barred: string -> bool, st: State, now: int, p: string)
    requires env.archive == LinkedInto(barred, env.archiveDir) && p in st.files
    requires !LeavesBadFiles(env, p) && !Recent(now, st.files[p].meta)
    requires SearchEnds(st.files, barred, env.archiveDir, Base(p))
    ensures var dest, file := FirstFree(st.files, barred, env.archiveDir, Base(p)), st.files[p];
            Fail(env, st, now, p) == Remove(st.(files := (st.files - {p})[dest := file],
                                                failedMeta := st.failedMeta[dest := file.meta]), true, p)
  {
    hide FirstFree, SearchEnds, Remove;
    assert st.files[p].(meta := st.files[p].meta) == st.files[p];
  }

  /** Every file lands well in such an archive, on any file system. */
  lemma LinkingLandsWell(env: Env, said: Contents, barred: string -> bool, files: map<string, File>, p: string)
    requires Links(env, said, barred) && Determined(said, files) && p in files
    ensures Relocates(env) && LandsWell(env, said, files, p)
  {
    hide LinkName;
    forall fs: map<string, File>, q | q in fs ensures env.archive(fs, q).0 != q {
      LinkNameIsFree(fs, barred, env.archiveDir, Base(q));
    }
    LinkNameIsFree(files, barred, env.archiveDir, Base(p));
    assert said(env.archive(files, p).0, files[p].meta) == said(p, files[p].meta);
  }

  /** A bad file may always be visited: what its failure leaves on record is true. */
  lemma LinkingArchivesWell(env: Env, said: Contents, barred: string -> bool, st: State, now: int, p: string)
    requires Links(env, said, barred) && Vouches(env, said, st) && Determined(said, st.files)
    requires p in st.files && IsTorrentPath(p) && env.decode(st.files[p].content) == None
    ensures FailFits(env, said, st, now, p) && VisitFits(env, said, st, now, p)
  {
    hide LinkName;
    LinkingLandsWell(env, said, barred, st.files, p);
    NamedTorrent(p);
    if env.archiveDir != "" {
      LinkNameIsFree(st.files, barred, env.archiveDir, Base(p));
    }
  }

  lemma NamedTorrent(p: string)
    requires IsTorrentPath(p)
    ensures Base(p) != ""
  {
    hide Base;
    assert Ext("") == "";
  }

  lemma FirstFreeIsFree(files: map<string, File>, barred: string -> bool, dir: string, name: string)
    requires SearchEnds(files, barred, dir, name)
    ensures FirstFree(files, barred, dir, name) !in files
  {
    var stats: nat :| Search(files, barred, dir, name, stats).Some?;
    FoundFirst(files, barred, dir, name, stats);
  }

  lemma FirstFreeIsBelow(files: map<string, File>, barred: string -> bool, dir: string, name: string)
    requires dir != "" && name != "" && SearchEnds(files, barred, dir, name)
    ensures Below(dir, FirstFree(files, barred, dir, name))
  {
    hide FirstFree;
    var stats: nat :| Search(files, barred, dir, name, stats).Some?;
    FoundFirst(files, barred, dir, name, stats);
    if IsFree(files, barred, Join(dir, name)) {
    } else {
      var j := FromIsNumbered(files, barred, dir, name, 1, stats - 1);
    }
  }

  // ----- What a scan leaves behind -----

  /** Files are moved to absent names below the archive directory. */
  ghost predicate ArchivesFreely(env: Env) {
    forall files: map<string, File>, p :: p in files && IsTorrentPath(p) ==>
      && env.archive(files, p).0 !in files
      && (env.archiveDir != "" ==> Below(env.archiveDir, env.archive(files, p).0))
  }

  lemma LinkingArchivesFreely(env: Env, barred: string -> bool)
    requires env.archive == LinkedInto(barred, env.archiveDir)
    ensures ArchivesFreely(env)
  {
    hide LinkName, IsTorrentPath;
    forall files: map<string, File>, p | p in files && IsTorrentPath(p)
      ensures env.archive(files, p).0 !in files
      ensures env.archiveDir != "" ==> Below(env.archiveDir, env.archive(files, p).0)
    {
      NamedTorrent(p);
      LinkNameIsFree(files, barred, env.archiveDir, Base(p));
    }
  }

  /** A file that cannot be read stays if there is no archive, if it lies there already, or if it was modified
      less than two seconds ago; what stays outside this grace is on record, and what goes is on record under
      its new name and has lost its entry. */
  lemma FailureArchivesExactly(env: Env, st: State, now: int, p: string)
    requires p in st.files && IsTorrentPath(p) && ArchivesFreely(env)
    ensures var t, file, dest := Fail(env, st, now, p), st.files[p], env.archive(st.files, p).0;
            var bad := env.archiveDir == "" || Below(env.archiveDir, p);
            && (p in t.files <==> bad || now - file.meta.modTime < 2_000_000_000)
            && (p in t.files ==> t.files == st.files && t.byPath == st.byPath && t.events == st.events)
            && (bad ==> t.failedMeta == st.failedMeta[p := file.meta])
            && (p !in t.files ==>
                  && dest in t.files && t.files[dest].content == file.content
                  && t.files - {dest} == st.files - {p} && dest in t.failedMeta
                  && t.failedMeta[dest] == t.files[dest].meta && p !in t.failedMeta && p !in t.loadedMeta
                  && t.byPath == st.byPath - {p} && t.events == st.events + RemoveEvents(st.byPath, p))
            && (p in t.files && !bad ==> t == st)
  {
    hide RemoveEvents, IsTorrentPath;
    var dest := env.archive(st.files, p).0;
    assert dest != p;
    assert ((st.files - {p})[dest := st.files[p]]) - {dest} == st.files - {p};
  }

  /** What a visit makes of a file: a readable one has the entry its content decodes to; of the others a bad or
      young one stays, its entry as it was, and any other is gone, its entry with it. */
  predicate Found(env: Env, st: State, now: int, p: string, t: State)
    requires p in st.files
  {
    var file := st.files[p];
    if !file.locked && env.decode(file.content).Some? then
      p in t.files && t.files[p] == file && p in t.byPath && t.byPath[p] == env.decode(file.content).value
    else if env.archiveDir == "" || Below(env.archiveDir, p) || now - file.meta.modTime < 2_000_000_000 then
      && p in t.files && t.files[p] == file && (p in t.byPath <==> p in st.byPath)
      && (p in st.byPath ==> t.byPath[p] == st.byPath[p])
    else p !in t.files && p !in t.byPath
  }

  /** The file and the entry of the path are as they were. */
  predicate Untouched(st: State, t: State, p: string) {
    && (p in t.files <==> p in st.files) && (p in st.files ==> t.files[p] == st.files[p])
    && (p in t.byPath <==> p in st.byPath) && (p in st.byPath ==> t.byPath[p] == st.byPath[p])
  }

  lemma VisitFinds(env: Env, st: State, now: int, notify: bool, p: string)
    requires p in st.files && IsTorrentPath(p) && ArchivesFreely(env)
    ensures Found(env, st, now, p, Visit(env, false, st, now, notify, p))
  {
    hide IsTorrentPath, LoadEvents, RemoveEvents, ArchivesFreely;
    if Read(env, st.files[p]).None? {
      FailureArchivesExactly(env, st, now, p);
    }
  }

  /** Visiting one path leaves every other one alone, unless it is an absent name in the archive. */
  lemma VisitLeavesOthers(env: Env, fast: bool, st: State, now: int, notify: bool, q: string, p: string)
    requires ArchivesFreely(env) && IsTorrentPath(q) && p != q
    requires p in st.files || !Below(env.archiveDir, p) || LeavesBadFiles(env, q)
    ensures Untouched(st, Visit(env, fast, st, now, notify, q), p)
  {
    hide IsTorrentPath, LoadEvents, RemoveEvents, ArchivesFreely;
    if q in st.files && Read(env, st.files[q]).None? {
      FailureArchivesExactly(env, st, now, q);
      ArchiveIsElsewhere(env, st.files, q, p);
      var t, dest := Fail(env, st, now, q), env.archive(st.files, q).0;
      assert dest != p && q !in t.files ==> (p in t.files - {dest} <==> p in st.files - {q});
      assert dest != p && q !in t.files && p in t.files ==> (t.files - {dest})[p] == (st.files - {q})[p];
    }
  }

  lemma ArchiveIsElsewhere(env: Env, files: map<string, File>, q: string, p: string)
    requires ArchivesFreely(env) && IsTorrentPath(q) && q in files
    ensures env.archive(files, q).0 !in files
    ensures env.archiveDir != "" && !Below(env.archiveDir, p) ==> env.archive(files, q).0 != p
  {
    hide IsTorrentPath;
  }

  lemma {:induction false} VisitsLeaveOthers(env: Env, fast: bool, st: State, now: int, notify: bool,
                                             paths: seq<string>, p: string)
    requires ArchivesFreely(env) && p !in paths
    requires forall i :: 0 <= i < |paths| ==> IsTorrentPath(paths[i])
    requires p in st.files || !Below(env.archiveDir, p)
             || forall i :: 0 <= i < |paths| ==> LeavesBadFiles(env, paths[i])
    ensures Untouched(st, VisitAll(env, fast, st, now, notify, paths), p)
    decreases |paths|
  {
    hide ArchivesFreely, Visit, IsTorrentPath, Below, LeavesBadFiles;
    if paths == [] {
    } else {
      assert paths[0] in paths && forall q :: q in paths[1..] ==> q in paths;
      VisitLeavesOthers(env, fast, st, now, notify, paths[0], p);
      VisitsLeaveOthers(env, fast, Visit(env, fast, st, now, notify, paths[0]), now, notify, paths[1..], p);
    }
  }

  lemma {:induction false} VisitsFind(env: Env, st: State, now: int, notify: bool, paths: seq<string>, i: nat)
    requires ArchivesFreely(env) && i < |paths| && paths[i] in st.files
    requires forall k :: 0 <= k < |paths| ==> IsTorrentPath(paths[k])
    requires forall k, m :: 0 <= k < m < |paths| ==> paths[k] != paths[m]
    ensures Found(env, st, now, paths[i], VisitAll(env, false, st, now, notify, paths))
    decreases |paths|
  {
    hide ArchivesFreely, Visit, IsTorrentPath;
    var p, next := paths[i], Visit(env, false, st, now, notify, paths[0]);
    if i == 0 {
      VisitFinds(env, st, now, notify, p);
      VisitsAfter(env, st, next, now, notify, paths[1..], p);
    } else {
      VisitLeavesOthers(env, false, st, now, notify, paths[0], p);
      VisitsFind(env, next, now, notify, paths[1..], i - 1);
    }
  }

  lemma VisitsAfter(env: Env, st: State, next: State, now: int, notify: bool, paths: seq<string>, p: string)
    requires ArchivesFreely(env) && p in st.files && p !in paths && Found(env, st, now, p, next)
    requires forall k :: 0 <= k < |paths| ==> IsTorrentPath(paths[k])
    ensures Found(env, st, now, p, VisitAll(env, false, next, now, notify, paths))
  {
    hide ArchivesFreely, VisitAll, IsTorrentPath;
    VisitsLeaveOthers(env, false, next, now, notify, paths, p);
  }

  lemma {:induction false} RemoveAllRemoves(st: State, notify: bool, paths: seq<string>)
    ensures var t := RemoveAll(st, notify, paths);
            && t.files == st.files && (forall p :: p in t.byPath <==> p in st.byPath && p !in paths)
            && (forall p :: p in t.byPath ==> t.byPath[p] == st.byPath[p])
    decreases |paths|
  {
    hide RemoveEvents;
    if paths == [] {
    } else {
      RemoveAllRemoves(Remove(st, notify, paths[0]), notify, paths[1..]);
      assert forall p :: p in paths <==> p == paths[0] || p in paths[1..];
    }
  }

  /** Afterwards the store has entries of seen paths only. */
  lemma ScanForgetsTheUnseen(env: Env, fast: bool, st: State, now: int, notify: bool)
    requires ListsSets(env.order)
    ensures ScanDir(env, fast, st, now, notify).byPath.Keys <= VisitDirs(env, fast, st, now, notify).1
  {
    hide VisitDirs, RemoveAll;
    var (a, seen) := VisitDirs(env, fast, st, now, notify);
    var missing := a.byPath.Keys - seen;
    assert ListsSet(env.order(missing), missing);
    RemoveAllRemoves(a, notify, env.order(missing));
  }

  lemma RightInIsBelow(dir: string, p: string)
    requires dir != "" && RightIn(dir, p) && IsTorrentPath(p)
    ensures Below(dir, p)
  {
    hide LastIndex;
    NamedTorrent(p);
    var i := LastIndex(p, '/');
    assert p[..i] == dir && p[i] == '/' && Base(p) == p[i + 1..];
    assert p[..|dir| + 1] == dir + "/";
  }

  /** Every torrent file right in one of the directories is found by a scan that reads all. */
  lemma ScanFindsEveryFile(env: Env, st: State, now: int, notify: bool, p: string)
    requires ListsSets(env.order) && ArchivesFreely(env)
    requires p in st.files && IsTorrentPath(p)
    requires RightIn(env.torrentsDir, p) || (env.archiveDir != "" && RightIn(env.archiveDir, p))
    ensures Found(env, st, now, p, ScanDir(env, false, st, now, notify))
  {
    hide ArchivesFreely, VisitAll, RemoveAll, Found, IsTorrentPath, RightIn;
    var (a, seen) := VisitDirs(env, false, st, now, notify);
    var missing := a.byPath.Keys - seen;
    assert ListsSet(env.order(missing), missing);
    RemoveAllRemoves(a, notify, env.order(missing));
    if RightIn(env.torrentsDir, p) {
      FirstDirFinds(env, st, now, notify, p);
    } else {
      SecondDirFinds(env, st, now, notify, p);
    }
    FoundStays(env, st, now, p, a, RemoveAll(a, notify, env.order(missing)), missing);
  }

  lemma FoundStays(env: Env, st: State, now: int, p: string, a: State, t: State, missing: set<string>)
    requires p in st.files && Found(env, st, now, p, a) && t.files == a.files && p !in missing
    requires forall q :: q in t.byPath ==> q in a.byPath && t.byPath[q] == a.byPath[q]
    requires forall q :: q in a.byPath && q !in missing ==> q in t.byPath
    ensures Found(env, st, now, p, t)
  {
  }

  lemma ListedOnce(env: Env, paths: set<string>, dir: string)
    requires ListsSets(env.order)
    ensures ListsSet(env.order(Listed(paths, dir)), Listed(paths, dir))
    ensures forall i :: 0 <= i < |env.order(Listed(paths, dir))| ==> IsTorrentPath(env.order(Listed(paths, dir))[i])
    ensures forall i :: 0 <= i < |env.order(Listed(paths, dir))| ==> RightIn(dir, env.order(Listed(paths, dir))[i])
  {
    hide IsTorrentPath, RightIn;
    var s := Listed(paths, dir);
    assert ListsSet(env.order(s), s);
  }

  lemma ArchivedStay(env: Env, paths: set<string>)
    requires ListsSets(env.order) && env.archiveDir != ""
    ensures var second := env.order(Listed(paths, env.archiveDir));
            forall i :: 0 <= i < |second| ==> LeavesBadFiles(env, second[i])
  {
    hide RightIn, IsTorrentPath, Below;
    var second := env.order(Listed(paths, env.archiveDir));
    ListedOnce(env, paths, env.archiveDir);
    forall i | 0 <= i < |second| ensures LeavesBadFiles(env, second[i]) {
      RightInIsBelow(env.archiveDir, second[i]);
    }
  }

  lemma FirstDirFinds(env: Env, st: State, now: int, notify: bool, p: string)
    requires ListsSets(env.order) && ArchivesFreely(env) && p in st.files && IsTorrentPath(p)
    requires RightIn(env.torrentsDir, p)
    ensures var (a, seen) := VisitDirs(env, false, st, now, notify);
            Found(env, st, now, p, a) && p in seen
  {
    hide ArchivesFreely, VisitAll, IsTorrentPath, Found;
    var first := env.order(Listed(st.files.Keys, env.torrentsDir));
    ListedOnce(env, st.files.Keys, env.torrentsDir);
    assert p in Listed(st.files.Keys, env.torrentsDir) && p in first;
    var i :| 0 <= i < |first| && first[i] == p;
    VisitsFind(env, st, now, notify, first, i);
    var a := VisitAll(env, false, st, now, notify, first);
    if !(env.archiveDir == "" || env.archiveDir == env.torrentsDir) {
      var second := env.order(Listed(a.files.Keys, env.archiveDir));
      ListedOnce(env, a.files.Keys, env.archiveDir);
      ArchivedStay(env, a.files.Keys);
      assert p !in second;
      VisitsLeaveOthers(env, false, a, now, notify, second, p);
      FoundUntouched(env, st, now, p, a, VisitAll(env, false, a, now, notify, second));
    }
  }

  lemma FoundUntouched(env: Env, st: State, now: int, p: string, a: State, t: State)
    requires p in st.files && Found(env, st, now, p, a) && Untouched(a, t, p)
    ensures Found(env, st, now, p, t)
  {
  }

  lemma FoundFrom(env: Env, st: State, now: int, p: string, a: State, t: State)
    requires p in st.files && Untouched(st, a, p) && Found(env, a, now, p, t)
    ensures Found(env, st, now, p, t)
  {
  }

  lemma SecondDirFinds(env: Env, st: State, now: int, notify: bool, p: string)
    requires ListsSets(env.order) && ArchivesFreely(env) && p in st.files && IsTorrentPath(p)
    requires !RightIn(env.torrentsDir, p) && env.archiveDir != "" && RightIn(env.archiveDir, p)
    ensures var (a, seen) := VisitDirs(env, false, st, now, notify);
            Found(env, st, now, p, a) && p in seen
  {
    hide ArchivesFreely, VisitAll, IsTorrentPath, Found;
    var first := env.order(Listed(st.files.Keys, env.torrentsDir));
    ListedOnce(env, st.files.Keys, env.torrentsDir);
    assert p !in first;
    VisitsLeaveOthers(env, false, st, now, notify, first, p);
    var a := VisitAll(env, false, st, now, notify, first);
    var second := env.order(Listed(a.files.Keys, env.archiveDir));
    ListedOnce(env, a.files.Keys, env.archiveDir);
    assert p in Listed(a.files.Keys, env.archiveDir) && p in second;
    var i :| 0 <= i < |second| && second[i] == p;
    VisitsFind(env, a, now, notify, second, i);
    FoundFrom(env, st, now, p, a, VisitAll(env, false, a, now, notify, second));
  }

  lemma SeenAreListed(env: Env, fast: bool, st: State, now: int, notify: bool, p: string)
    requires p in VisitDirs(env, fast, st, now, notify).1
    ensures IsTorrentPath(p)
    ensures RightIn(env.torrentsDir, p) || (env.archiveDir != "" && RightIn(env.archiveDir, p))
    ensures p !in st.files ==>
              var a := VisitAll(env, fast, st, now, notify, env.order(Listed(st.files.Keys, env.torrentsDir)));
              env.archiveDir != "" && env.archiveDir != env.torrentsDir && p in Listed(a.files.Keys, env.archiveDir)
  {
    hide VisitAll, IsTorrentPath, RightIn;
  }

  /** Every entry is that of a torrent file right in one of the directories: of any other it is forgotten. */
  lemma ScanLeavesNoStaleEntry(env: Env, st: State, now: int, notify: bool, p: string)
    requires ListsSets(env.order) && ArchivesFreely(env)
    requires p in ScanDir(env, false, st, now, notify).byPath
    ensures p in ScanDir(env, false, st, now, notify).files && IsTorrentPath(p)
    ensures RightIn(env.torrentsDir, p) || (env.archiveDir != "" && RightIn(env.archiveDir, p))
  {
    hide ArchivesFreely, ScanDir, VisitAll, IsTorrentPath, RightIn, VisitDirs, Listed;
    ScanForgetsTheUnseen(env, false, st, now, notify);
    SeenAreListed(env, false, st, now, notify, p);
    if p in st.files {
      ScanFindsEveryFile(env, st, now, notify, p);
    } else {
      var a := VisitAll(env, false, st, now, notify, env.order(Listed(st.files.Keys, env.torrentsDir)));
      ArchivedNowStays(env, st, a, now, notify, p);
    }
  }

  lemma ArchivedNowStays(env: Env, st: State, a: State, now: int, notify: bool, p: string)
    requires ListsSets(env.order) && ArchivesFreely(env)
    requires a == VisitAll(env, false, st, now, notify, env.order(Listed(st.files.Keys, env.torrentsDir)))
    requires env.archiveDir != "" && env.archiveDir != env.torrentsDir && p in Listed(a.files.Keys, env.archiveDir)
    ensures p in ScanDir(env, false, st, now, notify).files
  {
    hide ArchivesFreely, VisitAll, RemoveAll, IsTorrentPath;
    var second := env.order(Listed(a.files.Keys, env.archiveDir));
    ListedOnce(env, a.files.Keys, env.archiveDir);
    assert p in second;
    var i :| 0 <= i < |second| && second[i] == p;
    VisitsFind(env, a, now, notify, second, i);
    RightInIsBelow(env.archiveDir, p);
    var (b, seen) := VisitDirs(env, false, st, now, notify);
    RemoveAllRemoves(b, notify, env.order(b.byPath.Keys - seen));
  }

  /** So does the scan that skips, as long as its visits fit. */
  lemma SkippingScanFindsEveryFile(env: Env, said: Contents, st: State, now: int, notify: bool, p: string)
    requires ListsSets(env.order) && ArchivesFreely(env)
    requires Vouches(env, said, st) && Determined(said, st.files) && ScanFits(env, said, st, now, notify)
    requires p in st.files && IsTorrentPath(p)
    requires RightIn(env.torrentsDir, p) || (env.archiveDir != "" && RightIn(env.archiveDir, p))
    ensures Found(env, st, now, p, ScanDir(env, true, st, now, notify))
  {
    hide ArchivesFreely, ScanDir, ScanFits, IsTorrentPath, RightIn, Vouches;
    ScanFindsEveryFile(env, st, now, notify, p);
    ScanRefines(env, said, st, st, now, notify);
  }

  lemma SkippingScanLeavesNoStaleEntry(env: Env, said: Contents, st: State, now: int, notify: bool, p: string)
    requires ListsSets(env.order) && ArchivesFreely(env)
    requires Vouches(env, said, st) && Determined(said, st.files) && ScanFits(env, said, st, now, notify)
    requires p in ScanDir(env, true, st, now, notify).byPath
    ensures p in ScanDir(env, true, st, now, notify).files && IsTorrentPath(p)
    ensures RightIn(env.torrentsDir, p) || (env.archiveDir != "" && RightIn(env.archiveDir, p))
  {
    hide ArchivesFreely, ScanDir, ScanFits, IsTorrentPath, RightIn, Vouches;
    ScanRefines(env, said, st, st, now, notify);
    ScanLeavesNoStaleEntry(env, st, now, notify, p);
  }

  // ----- What a scan tells -----

  predicate LogRight(start: set<Hash>, st: State) {
    Replay(start, st.events) == Hashes(st.byPath)
  }

  lemma RemoveTells(start: set<Hash>, st: State, p: string)
    requires LogRight(start, st)
    ensures LogRight(start, Remove(st, true, p))
  {
    hide Replay, Hashes, RemoveEvents;
    RemoveReplays(start, st.events, st.byPath, p);
  }

  lemma VisitTells(env: Env, fast: bool, start: set<Hash>, st: State, now: int, p: string)
    requires LogRight(start, st)
    ensures LogRight(start, Visit(env, fast, st, now, true, p))
  {
    hide Replay, Hashes, LoadEvents, RemoveEvents;
    if p !in st.files {
      RemoveTells(start, st, p);
    } else if Read(env, st.files[p]).Some? {
      LoadReplays(start, st.events, st.byPath, p, Read(env, st.files[p]).value);
    } else {
      RemoveReplays(start, st.events, st.byPath, p);
    }
  }

  lemma {:induction false} VisitsTell(env: Env, fast: bool, start: set<Hash>, st: State, now: int, paths: seq<string>)
    requires LogRight(start, st)
    ensures LogRight(start, VisitAll(env, fast, st, now, true, paths))
    decreases |paths|
  {
    hide LogRight, Visit;
    if paths == [] {
    } else {
      VisitTells(env, fast, start, st, now, paths[0]);
      VisitsTell(env, fast, start, Visit(env, fast, st, now, true, paths[0]), now, paths[1..]);
    }
  }

  lemma {:induction false} RemovalsTell(start: set<Hash>, st: State, paths: seq<string>)
    requires LogRight(start, st)
    ensures LogRight(start, RemoveAll(st, true, paths))
    decreases |paths|
  {
    hide LogRight, Remove;
    if paths == [] {
    } else {
      RemoveTells(start, st, paths[0]);
      RemovalsTell(start, Remove(st, true, paths[0]), paths[1..]);
    }
  }

  /** A notifying scan tells exactly what it changes: who knew the hashes before knows them afterwards. */
  lemma ScanTells(env: Env, fast: bool, start: set<Hash>, st: State, now: int)
    requires LogRight(start, st)
    ensures LogRight(start, ScanDir(env, fast, st, now, true))
  {
    hide LogRight, VisitAll, RemoveAll, Listed;
    var first := env.order(Listed(st.files.Keys, env.torrentsDir));
    VisitsTell(env, fast, start, st, now, first);
    var a := VisitAll(env, fast, st, now, true, first);
    VisitsTell(env, fast, start, a, now, env.order(Listed(a.files.Keys, env.archiveDir)));
    var (b, seen) := VisitDirs(env, fast, st, now, true);
    RemovalsTell(start, b, env.order(b.byPath.Keys - seen));
  }

  // ----- Runs in which no good file is locked -----

  predicate OnlyBadAreLocked(env: Env, files: map<string, File>) {
    forall p :: p in files && files[p].locked ==> env.decode(files[p].content) == None
  }

  /** Files are determined by their fingerprints, torrents are watched, no read of a good file fails, and what
      is entered is what the file then tells of. */
  predicate Calm(env: Env, said: Contents, st: State, step: Step) {
    match step
    case Change(files) => Determined(said, files)
    case Scan(_, _) => OnlyBadAreLocked(env, st.files)
    case Load(path, _) => IsTorrentPath(path) && OnlyBadAreLocked(env, st.files)
    case Forget(_) => true
    case Transfer(_, _, _, _) => StepFits(env, said, st, step)
    case Overwrite(path, now, files) =>
      && IsTorrentPath(path) && Determined(said, files)
      && (path in st.files ==>
            var read := Read(env, st.files[path]);
            if read.None? then path in files ==> env.decode(files[path].content) == None
            else if path in files then Tells(env, path, files[path].content, read.value)
            else path !in st.loadedMeta || Tells(env, path, said(path, st.loadedMeta[path]), read.value))
  }

  predicate CalmRun(env: Env, said: Contents, st: State, steps: seq<Step>)
    decreases |steps|
  {
    || steps == []
    || (Calm(env, said, st, steps[0]) && CalmRun(env, said, Take(env, true, st, steps[0]), steps[1..]))
  }

  lemma BadStayLocked(env: Env, st: State, now: int, notify: bool, p: string)
    requires OnlyBadAreLocked(env, st.files)
    ensures OnlyBadAreLocked(env, Visit(env, true, st, now, notify, p).files)
  {
  }

  lemma {:induction false} CalmVisitsFit(env: Env, said: Contents, barred: string -> bool, f: State, s: State,
                                         now: int, notify: bool, paths: seq<string>)
    requires Links(env, said, barred) && Refines(env, said, f, s) && OnlyBadAreLocked(env, f.files)
    requires forall i :: 0 <= i < |paths| ==> IsTorrentPath(paths[i])
    ensures VisitsFit(env, said, f, now, notify, paths)
    ensures OnlyBadAreLocked(env, VisitAll(env, true, f, now, notify, paths).files)
    ensures Refines(env, said, VisitAll(env, true, f, now, notify, paths), VisitAll(env, false, s, now, notify, paths))
    decreases |paths|
  {
    hide Links, Visit, VisitFits, OnlyBadAreLocked, Vouches, IsTorrentPath, FailFits;
    if paths == [] {
    } else {
      CalmVisitFits(env, said, barred, f, now, paths[0]);
      VisitRefines(env, said, f, s, now, notify, paths[0]);
      BadStayLocked(env, f, now, notify, paths[0]);
      CalmVisitsFit(env, said, barred, Visit(env, true, f, now, notify, paths[0]),
                    Visit(env, false, s, now, notify, paths[0]), now, notify, paths[1..]);
    }
  }

  lemma CalmVisitFits(env: Env, said: Contents, barred: string -> bool, st: State, now: int, p: string)
    requires Links(env, said, barred) && Vouches(env, said, st) && Determined(said, st.files)
    requires OnlyBadAreLocked(env, st.files) && IsTorrentPath(p)
    ensures VisitFits(env, said, st, now, p)
  {
    hide Links, Vouches, FailFits, IsTorrentPath;
    if p in st.files && Read(env, st.files[p]).None? {
      LinkingArchivesWell(env, said, barred, st, now, p);
    }
  }

  lemma ListsTorrents(env: Env, paths: set<string>, dir: string)
    requires ListsSets(env.order)
    ensures var q := env.order(Listed(paths, dir));
            forall i :: 0 <= i < |q| ==> IsTorrentPath(q[i])
  {
    var s := Listed(paths, dir);
    assert ListsSet(env.order(s), s);
  }

  lemma CalmScanFits(env: Env, said: Contents, barred: string -> bool, f: State, s: State, now: int, notify: bool)
    requires Links(env, said, barred) && Refines(env, said, f, s) && OnlyBadAreLocked(env, f.files)
    ensures ScanFits(env, said, f, now, notify)
  {
    hide Refines, OnlyBadAreLocked, VisitAll, VisitsFit, Listed, IsTorrentPath;
    var first := env.order(Listed(f.files.Keys, env.torrentsDir));
    ListsTorrents(env, f.files.Keys, env.torrentsDir);
    CalmVisitsFit(env, said, barred, f, s, now, notify, first);
    var a, x := VisitAll(env, true, f, now, notify, first), VisitAll(env, false, s, now, notify, first);
    ListsTorrents(env, a.files.Keys, env.archiveDir);
    CalmVisitsFit(env, said, barred, a, x, now, notify, env.order(Listed(a.files.Keys, env.archiveDir)));
  }

  lemma CalmStepFits(env: Env, said: Contents, barred: string -> bool, f: State, s: State, step: Step)
    requires Links(env, said, barred) && Refines(env, said, f, s) && Calm(env, said, f, step)
    ensures StepFits(env, said, f, step)
  {
    hide Links, Vouches, ScanFits, FailFits, IsTorrentPath, Tells, LoadFits;
    match step
    case Scan(now, notify) => CalmScanFits(env, said, barred, f, s, now, notify);
    case Load(path, now) =>
      CalmVisitFits(env, said, barred, f, now, path);
      VisitMayLoad(env, said, f, now, path);
    case Overwrite(path, now, files) =>
      if path in f.files && Read(env, f.files[path]).None? && path in files {
        OthersVouch(env, said, f, files);
        LinkingArchivesWell(env, said, barred, f.(files := files), now, path);
      }
    case _ =>
  }

  lemma VisitMayLoad(env: Env, said: Contents, st: State, now: int, p: string)
    requires VisitFits(env, said, st, now, p)
    ensures LoadFits(env, said, st, now, p)
  {
  }

  lemma OthersVouch(env: Env, said: Contents, st: State, files: map<string, File>)
    requires Vouches(env, said, st)
    ensures Vouches(env, said, st.(files := files))
  {
  }

  lemma {:induction false} CalmRunFits(env: Env, said: Contents, barred: string -> bool, f: State, s: State,
                                       steps: seq<Step>)
    requires Links(env, said, barred) && Refines(env, said, f, s) && CalmRun(env, said, f, steps)
    ensures StepsFit(env, said, f, steps)
    decreases |steps|
  {
    hide Links, Refines, Calm, StepFits, Take;
    if steps == [] {
    } else {
      CalmStepFits(env, said, barred, f, s, steps[0]);
      StepRefines(env, said, f, s, steps[0]);
      CalmRunFits(env, said, barred, Take(env, true, f, steps[0]), Take(env, false, s, steps[0]), steps[1..]);
    }
  }

  /** On any file system whose links succeed: if size and modification time determine the content, no read of a
      good file fails, and what is entered is what the file then tells of, the skipping scan shows what the
      plain scan shows. */
  lemma CalmRunsAgree(env: Env, said: Contents, barred: string -> bool, steps: seq<Step>)
    requires Links(env, said, barred) && CalmRun(env, said, EMPTY, steps)
    ensures Agree(Run(env, true, EMPTY, steps), Run(env, false, EMPTY, steps))
  {
    hide Run, StepsFit, CalmRun, Links;
    CalmRunFits(env, said, barred, EMPTY, EMPTY, steps);
    SkippingScanRefinesPlainScan(env, said, steps);
  }

  // ----- Runs in which a good file is lost -----

  /** A good file whose reading fails is archived, and its torrent reported as removed, if it was loaded once. */
  lemma GoodFileIsArchived(env: Env, st: State, now: int, notify: bool, p: string, info: Info)
    requires p in st.files && st.files[p].locked && env.decode(st.files[p].content) == Some(info)
    requires !LeavesBadFiles(env, p) && !Recent(now, st.files[p].meta) && env.archive(st.files, p).0 != p
    requires p in st.byPath && st.byPath[p] == info && !Elsewhere(st.byPath, p, info.hash)
    ensures var t, dest := LoadOne(env, st, now, notify, p), env.archive(st.files, p).0;
            && p !in t.files && dest in t.files && env.decode(t.files[dest].content) == Some(info)
            && p !in t.byPath && t.events == st.events + [Removed(info.hash)]
  {
  }

  lemma ScanOfOne(env: Env, fast: bool, st: State, now: int, notify: bool, p: string)
    requires ListsSets(env.order) && env.archiveDir == "" && st.files.Keys == {p} && st.byPath.Keys <= {p}
    requires IsTorrentPath(p) && RightIn(env.torrentsDir, p)
    ensures ScanDir(env, fast, st, now, notify) == Visit(env, fast, st, now, notify, p)
  {
    hide IsTorrentPath, RightIn;
    assert Listed(st.files.Keys, env.torrentsDir) == {p};
    ListOfOne(env.order({p}), p);
    var a := Visit(env, fast, st, now, notify, p);
    assert VisitAll(env, fast, st, now, notify, [p]) == a by {
      assert [p][1..] == [];
    }
    assert a.byPath.Keys - {p} == {};
    ListOfNone(env.order({}), {});
  }

  lemma ListOfOne(q: seq<string>, p: string)
    requires ListsSet(q, {p})
    ensures q == [p]
  {
    assert p in q && forall i :: 0 <= i < |q| ==> q[i] == p;
    if |q| > 1 {
      FirstTwo(q);
    }
  }

  lemma ListOfNone(q: seq<string>, s: set<string>)
    requires ListsSet(q, s) && s == {}
    ensures q == []
  {
    if q != [] {
      First(q);
    }
  }

  lemma First(q: seq<string>)
    requires q != []
    ensures q[0] in q
  {
  }

  lemma FirstTwo(q: seq<string>)
    requires |q| > 1
    ensures q[0] in q && q[1] in q
  {
  }

  /** Locked at one scan, without an archive directory, a good file is passed by at the next although it can
      be read again; the plain scan loads it. */
  lemma LockedFileIsForgotten(env: Env, p: string, file: File, info: Info, now: int, later: int)
    requires ListsSets(env.order) && env.archiveDir == "" && IsTorrentPath(p) && RightIn(env.torrentsDir, p)
    requires env.decode(file.content) == Some(info)
    ensures var st := EMPTY.(files := map[p := file.(locked := true)]);
            var once := ScanDir(env, true, st, now, true);
            var open := once.(files := map[p := file.(locked := false)]);
            && once == ScanDir(env, false, st, now, true) == st.(failedMeta := map[p := file.meta])
            && ScanDir(env, true, open, later, true) == open
            && ScanDir(env, false, open, later, true).byPath == map[p := info]
  {
    hide IsTorrentPath, RightIn, ListsSets;
    var st := EMPTY.(files := map[p := file.(locked := true)]);
    ScanOfOne(env, true, st, now, true, p);
    ScanOfOne(env, false, st, now, true, p);
    var once := ScanDir(env, true, st, now, true);
    var open := once.(files := map[p := file.(locked := false)]);
    assert once == st.(failedMeta := map[p := file.meta]);
    ScanOfOne(env, true, open, later, true, p);
    ScanOfOne(env, false, open, later, true, p);
  }

  /** A file overwritten between its reading and the look at its fingerprint keeps its old entry: the next
      scan passes it by, and the plain scan enters the new content. */
  lemma OverwrittenFileStaysStale(env: Env, p: string, was: File, now: File, info: Info, other: Info, time: int)
    requires ListsSets(env.order) && env.archiveDir == "" && IsTorrentPath(p) && RightIn(env.torrentsDir, p)
    requires !was.locked && env.decode(was.content) == Some(info)
    requires !now.locked && env.decode(now.content) == Some(other) && info != other
    ensures var st := Overtaken(env, EMPTY.(files := map[p := was]), time, p, map[p := now]);
            && ScanDir(env, true, st, time, true) == st && st.byPath == map[p := info]
            && ScanDir(env, false, st, time, true).byPath == map[p := other]
  {
    hide IsTorrentPath, RightIn, ListsSets, LoadEvents;
    var st := Overtaken(env, EMPTY.(files := map[p := was]), time, p, map[p := now]);
    ScanOfOne(env, true, st, time, true, p);
    ScanOfOne(env, false, st, time, true, p);
  }
}
