/** The front-end build as a linker: modules are collected depth first, their named imports are
    checked, and all of them are laid out in one scope. */
module Bundler {
  import opened Numerals

  type Path = string

  /** An import statement's module specifier: a file of the project, or a package. */
  datatype Dep = Local(path: Path) | External(spec: string)

  datatype Import = Named(name: string, target: Path) | Renamed(text: string)

  /** What the build script extracts from one source file. */
  datatype Source = Source(
    unsupportedExport: bool, deps: seq<Dep>, imports: seq<Import>, exports: set<string>, decls: seq<string>)

  datatype Fault = MissingModule | UnsupportedExport | ExternalDependency | RenamedImport

  datatype Failure = Failure(file: Path, fault: Fault)

  type Files = map<Path, Source>

  // ----- The module graph -----

  /** What stops the build when it reads the file `p`. */
  function FaultOf(files: Files, p: Path): Option<Fault> {
    if p !in files then Some(MissingModule)
    else if files[p].unsupportedExport then Some(UnsupportedExport)
    else if exists i :: 0 <= i < |files[p].deps| && files[p].deps[i].External? then Some(ExternalDependency)
    else if exists i :: 0 <= i < |files[p].imports| && files[p].imports[i].Renamed? then Some(RenamedImport)
    else None
  }

  /** A file can be bundled when it is there, exports by declarations only, depends on files of the project
      only, and imports names as they are; of several faults the first of that list is reported. */
  lemma FaultExactly(files: Files, p: Path)
    ensures FaultOf(files, p).None? <==>
              && p in files && !files[p].unsupportedExport
              && (forall spec :: External(spec) !in files[p].deps)
              && (forall text :: Renamed(text) !in files[p].imports)
    ensures FaultOf(files, p) == Some(MissingModule) <==> p !in files
    ensures FaultOf(files, p) == Some(UnsupportedExport) <==> p in files && files[p].unsupportedExport
    ensures FaultOf(files, p) == Some(RenamedImport) <==>
              && p in files && !files[p].unsupportedExport
              && (forall spec :: External(spec) !in files[p].deps)
              && (exists text :: Renamed(text) in files[p].imports)
  {
    if p in files {
      var deps, imports := files[p].deps, files[p].imports;
      assert (exists i :: 0 <= i < |deps| && deps[i].External?) <==> (exists spec :: External(spec) in deps) by {
        if i :| 0 <= i < |deps| && deps[i].External? {
          assert External(deps[i].spec) in deps;
        }
      }
      assert (exists i :: 0 <= i < |imports| && imports[i].Renamed?) <==> (exists text :: Renamed(text) in imports) by {
        if i :| 0 <= i < |imports| && imports[i].Renamed? {
          assert Renamed(imports[i].text) in imports;
        }
      }
    }
  }

  predicate DependsOn(files: Files, p: Path, d: Path) {
    p in files && Local(d) in files[p].deps
  }

  ghost predicate IsPath(files: Files, walk: seq<Path>) {
    |walk| > 0 && forall i :: 0 < i < |walk| ==> DependsOn(files, walk[i - 1], walk[i])
  }

  ghost predicate Joins(files: Files, walk: seq<Path>, a: Path, b: Path) {
    IsPath(files, walk) && walk[0] == a && walk[|walk| - 1] == b
  }

  ghost predicate Reaches(files: Files, a: Path, b: Path) {
    exists walk :: Joins(files, walk, a, b)
  }

  lemma ReachesSelf(files: Files, a: Path)
    ensures Reaches(files, a, a)
  {
    assert Joins(files, [a], a, a);
  }

  lemma ReachesStep(files: Files, a: Path, b: Path, c: Path)
    requires Reaches(files, a, b) && DependsOn(files, b, c)
    ensures Reaches(files, a, c)
  {
    var walk :| Joins(files, walk, a, b);
    assert Joins(files, walk + [c], a, c);
  }

  lemma StepReaches(files: Files, a: Path, b: Path, c: Path)
    requires DependsOn(files, a, b) && Reaches(files, b, c)
    ensures Reaches(files, a, c)
  {
    var walk :| Joins(files, walk, b, c);
    assert Joins(files, [a] + walk, a, c);
  }

  /** No module depends on one that reaches it back. */
  ghost predicate Acyclic(files: Files, entry: Path) {
    forall m, d :: Reaches(files, entry, m) && DependsOn(files, m, d) ==> !Reaches(files, d, m)
  }

  /** Dependencies come first, except where a dependency reaches its dependent back. */
  ghost predicate Placed(files: Files, before: seq<Path>, m: Path) {
    forall d :: DependsOn(files, m, d) ==> d in before || Reaches(files, d, m)
  }

  predicate Distinct(s: seq<Path>) {
    forall i, j :: 0 <= i < j < |s| ==> s[i] != s[j]
  }

  // ----- collectModules -----

  /** How far the depth-first walk has come. */
  datatype Walk = Walk(seen: set<Path>, order: seq<Path>)

  /** The modules still being visited all lead to `file`. */
  ghost predicate Ready(files: Files, w: Walk, file: Path) {
    && Distinct(w.order) && (forall m :: m in w.order ==> m in w.seen)
    && (forall g :: g in w.seen && g !in w.order ==> Reaches(files, g, file))
  }

  ghost predicate Finished(files: Files, w: Walk, i: nat, file: Path)
    requires i < |w.order|
  {
    && FaultOf(files, w.order[i]).None?
    && (forall d :: DependsOn(files, w.order[i], d) ==> d in w.seen)
    && Reaches(files, file, w.order[i])
    && Placed(files, w.order[..i], w.order[i])
  }

  /** What visiting from `file` has added to the walk `w0`. */
  ghost predicate Added(files: Files, w0: Walk, w: Walk, file: Path) {
    && w0.order <= w.order && Distinct(w.order)
    && w.seen == w0.seen + (set m | m in w.order[|w0.order|..])
    && (forall i :: |w0.order| <= i < |w.order| ==> w.order[i] !in w0.seen && Finished(files, w, i, file))
  }

  lemma NothingAdded(files: Files, w: Walk, file: Path)
    requires Distinct(w.order)
    ensures Added(files, w, w, file)
  {
    assert w.order[|w.order|..] == [];
  }

  lemma ReadyIsDistinct(files: Files, w: Walk, file: Path)
    requires Ready(files, w, file)
    ensures Distinct(w.order)
  {
  }

  lemma AddedGrows(files: Files, w0: Walk, w: Walk, file: Path)
    requires Added(files, w0, w, file)
    ensures w0.seen <= w.seen
  {
  }

  lemma AddedByDependency(files: Files, w0: Walk, w1: Walk, w2: Walk, file: Path, dep: Path)
    requires Added(files, w0, w1, file) && Added(files, w1, w2, dep) && DependsOn(files, file, dep)
    ensures Added(files, w0, w2, file)
  {
    var n0, n1 := |w0.order|, |w1.order|;
    assert w2.order[n0..] == w1.order[n0..] + w2.order[n1..];
    forall i | n0 <= i < |w2.order| ensures w2.order[i] !in w0.seen && Finished(files, w2, i, file) {
      if i < n1 {
        assert w2.order[i] == w1.order[i] && w2.order[..i] == w1.order[..i];
        assert Finished(files, w1, i, file);
      } else {
        assert Finished(files, w2, i, dep);
        StepReaches(files, file, dep, w2.order[i]);
      }
    }
  }

  /** Pushing `file` once its dependencies are visited completes its visit. */
  lemma AddedWithItself(files: Files, w0: Walk, w: Walk, file: Path)
    requires Ready(files, w0, file) && file !in w0.seen && FaultOf(files, file).None?
    requires Added(files, w0.(seen := w0.seen + {file}), w, file)
    requires forall d :: DependsOn(files, file, d) ==> d in w.seen
    ensures Added(files, w0, w.(order := w.order + [file]), file)
  {
    var n0, order := |w0.order|, w.order + [file];
    var w' := w.(order := order);
    assert order[n0..] == w.order[n0..] + [file];
    assert forall i :: 0 <= i < n0 ==> w.order[i] in w0.order;
    assert file !in w.order;
    ReachesSelf(files, file);
    assert order[..|w.order|] == w.order;
    forall d | DependsOn(files, file, d) && d !in w.order ensures Reaches(files, d, file) {
      assert d !in w.order[n0..];
    }
    forall i | n0 <= i < |order| ensures order[i] !in w0.seen && Finished(files, w', i, file) {
      if i < |w.order| {
        assert Finished(files, w, i, file);
        assert order[..i] == w.order[..i];
      }
    }
  }

  lemma ReadyForDependency(files: Files, w0: Walk, w: Walk, file: Path, dep: Path)
    requires Ready(files, w0, file) && DependsOn(files, file, dep)
    requires Added(files, w0.(seen := w0.seen + {file}), w, file)
    ensures Ready(files, w, dep)
  {
    var n0 := |w0.order|;
    assert w.order == w0.order + w.order[n0..];
    forall g | g in w.seen && g !in w.order ensures Reaches(files, g, dep) {
      ReachesSelf(files, file);
      assert g !in w.order[n0..];
      ReachesStep(files, g, file, dep);
    }
  }

  /** What was placed after the first `n0` modules is reached from one of the first `n` dependencies. */
  ghost predicate ReachedFromFirst(files: Files, order: seq<Path>, n0: nat, deps: seq<Dep>, n: nat) {
    forall i :: n0 <= i < |order| ==> exists k :: 0 <= k < n && k < |deps| && ReachedFromDep(files, deps[k], order[i])
  }

  ghost predicate ReachedFromDep(files: Files, dep: Dep, m: Path) {
    dep.Local? && Reaches(files, dep.path, m)
  }

  /** `a` stands in the order, and `b`, if it does too, stands later. */
  predicate Precedes(order: seq<Path>, a: Path, b: Path) {
    exists i :: 0 <= i < |order| && order[i] == a && b !in order[..i + 1]
  }

  /** Dependencies are placed in the order they are written in, unless the later one was seen before, is the
      file itself, or is reached from an earlier one. */
  ghost predicate SiblingsInOrder(files: Files, file: Path, seen: set<Path>, order: seq<Path>) {
    file in files && forall i, j :: 0 <= i < j < |files[file].deps| && Unforeseen(files, file, seen, i, j) ==>
      Precedes(order, files[file].deps[i].path, files[file].deps[j].path)
  }

  ghost predicate Unforeseen(files: Files, file: Path, seen: set<Path>, i: nat, j: nat)
    requires file in files && i < j < |files[file].deps|
  {
    var deps := files[file].deps;
    && deps[i].Local? && deps[j].Local? && deps[i].path !in seen + {file} && deps[j].path !in seen + {file}
    && forall k :: 0 <= k <= i ==> !ReachedFromDep(files, deps[k], deps[j].path)
  }

  lemma PrecedesOn(order: seq<Path>, more: seq<Path>, a: Path, b: Path)
    requires Precedes(order, a, b) && order <= more
    ensures Precedes(more, a, b)
  {
    var i :| 0 <= i < |order| && order[i] == a && b !in order[..i + 1];
    assert more[..i + 1] == order[..i + 1];
  }

  lemma NothingReached(files: Files, order: seq<Path>, deps: seq<Dep>)
    ensures ReachedFromFirst(files, order, |order|, deps, 0)
  {
  }

  lemma OrderGrows(files: Files, w: Walk, w2: Walk, dep: Path)
    requires Added(files, w, w2, dep)
    ensures w.order <= w2.order
  {
  }

  lemma SiblingsStay(files: Files, file: Path, seen: set<Path>, order: seq<Path>, m: Path)
    requires SiblingsInOrder(files, file, seen, order)
    ensures SiblingsInOrder(files, file, seen, order + [m])
  {
    hide Precedes;
    var deps := files[file].deps;
    forall i, j | 0 <= i < j < |deps| && Unforeseen(files, file, seen, i, j)
      ensures Precedes(order + [m], deps[i].path, deps[j].path)
    {
      PrecedesOn(order, order + [m], deps[i].path, deps[j].path);
    }
  }

  lemma ReachedOn(files: Files, w: Walk, w2: Walk, n0: nat, deps: seq<Dep>, i: nat)
    requires i < |deps| && deps[i].Local? && n0 <= |w.order|
    requires ReachedFromFirst(files, w.order, n0, deps, i) && Added(files, w, w2, deps[i].path)
    ensures ReachedFromFirst(files, w2.order, n0, deps, i + 1)
  {
    hide Reaches, Placed;
    forall m | n0 <= m < |w2.order|
      ensures exists k :: 0 <= k < i + 1 && k < |deps| && ReachedFromDep(files, deps[k], w2.order[m])
    {
      if m < |w.order| {
        assert w2.order[m] == w.order[m];
      } else {
        assert Finished(files, w2, m, deps[i].path);
        assert ReachedFromDep(files, deps[i], w2.order[m]);
      }
    }
  }

  lemma FirstIsPlaced(files: Files, file: Path, w0: Walk, w: Walk, i: nat, j: nat)
    requires file in files && i < j < |files[file].deps| && Unforeseen(files, file, w0.seen, i, j)
    requires Ready(files, w0, file) && Added(files, w0.(seen := w0.seen + {file}), w, file)
    requires files[file].deps[i].path in w.seen
    requires ReachedFromFirst(files, w.order, |w0.order|, files[file].deps, i + 1)
    ensures Precedes(w.order, files[file].deps[i].path, files[file].deps[j].path)
  {
    hide Reaches, Finished;
    var a, b, n0 := files[file].deps[i].path, files[file].deps[j].path, |w0.order|;
    assert a in w.order[n0..];
    var m :| n0 <= m < |w.order| && w.order[m] == a;
    forall k | 0 <= k <= m ensures w.order[k] != b {
      if k < n0 {
        assert w.order[k] == w0.order[k] && w0.order[k] in w0.seen;
      }
    }
    assert b !in w.order[..m + 1];
  }

  class Collector {
    const files: Files
    var seen: set<Path>
    var order: seq<Path>

    constructor (files: Files)
      ensures this.files == files && seen == {} && order == []
    {
      this.files := files;
      seen, order := {}, [];
    }

    ghost function Now(): Walk
      reads this
    {
      Walk(seen, order)
    }

    method Visit(file: Path) returns (failure: Option<Failure>)
      requires Ready(files, Now(), file)
      modifies this
      ensures failure.None? ==> file in seen && Added(files, old(Now()), Now(), file)
      ensures failure.None? && file !in old(seen) ==> SiblingsInOrder(files, file, old(seen), order)
      ensures failure.Some? ==> FaultOf(files, failure.value.file) == Some(failure.value.fault)
                                && Reaches(files, file, failure.value.file)
      decreases files.Keys - seen, 0
    {
      ReachesSelf(files, file);
      if file in seen {
        NothingAdded(files, Now(), file);
        return None;
      }
      seen := seen + {file};
      var fault := FaultOf(files, file);
      if fault.Some? {
        return Some(Failure(file, fault.value));
      }
      failure := VisitDeps(file, old(Now()));
      if failure.None? {
        AddedWithItself(files, old(Now()), Now(), file);
        SiblingsStay(files, file, old(seen), order, file);
        order := order + [file];
      }
    }

    method VisitDeps(file: Path, ghost w0: Walk) returns (failure: Option<Failure>)
      requires file in files && FaultOf(files, file).None?
      requires Ready(files, w0, file) && Now() == w0.(seen := w0.seen + {file})
      modifies this
      ensures failure.None? ==> Added(files, old(Now()), Now(), file)
      ensures failure.None? ==> forall d :: DependsOn(files, file, d) ==> d in seen
      ensures failure.None? ==> SiblingsInOrder(files, file, w0.seen, order)
      ensures failure.Some? ==> FaultOf(files, failure.value.file) == Some(failure.value.fault)
                                && Reaches(files, file, failure.value.file)
      decreases files.Keys - seen, 1
    {
      hide Added, Ready, Reaches, ReachedFromFirst, Unforeseen, Precedes;
      NothingAdded(files, Now(), file) by { ReadyIsDistinct(files, w0, file); }
      NothingReached(files, order, files[file].deps);
      var deps := files[file].deps;
      for i := 0 to |deps|
        invariant Added(files, old(Now()), Now(), file)
        invariant old(seen) <= seen && forall k :: 0 <= k < i ==> deps[k].path in seen
        invariant |w0.order| <= |order| && ReachedFromFirst(files, order, |w0.order|, deps, i)
        invariant forall k, j :: 0 <= k < i && k < j < |deps| && Unforeseen(files, file, w0.seen, k, j) ==>
                    Precedes(order, deps[k].path, deps[j].path)
      {
        var dep := deps[i].path;
        assert DependsOn(files, file, dep);
        ReadyForDependency(files, w0, Now(), file, dep);
        ghost var before := Now();
        failure := Visit(dep);
        if failure.Some? {
          StepReaches(files, file, dep, failure.value.file);
          return;
        }
        AddedGrows(files, before, Now(), dep);
        AddedGrows(files, old(Now()), before, file);
        AddedByDependency(files, old(Now()), before, Now(), file, dep);
        ReachedOn(files, before, Now(), |w0.order|, deps, i);
        OrderGrows(files, before, Now(), dep);
        forall k, j | 0 <= k <= i && k < j < |deps| && Unforeseen(files, file, w0.seen, k, j)
          ensures Precedes(order, deps[k].path, deps[j].path)
        {
          if k < i {
            PrecedesOn(before.order, order, deps[k].path, deps[j].path);
          } else {
            FirstIsPlaced(files, file, w0, Now(), i, j);
          }
        }
      }
      failure := None;
    }
  }

  datatype Collected = Modules(order: seq<Path>) | Stopped(failure: Failure)

  /** `order` lists what `entry` reaches: everything, once each, nothing else. */
  ghost predicate Lists(files: Files, entry: Path, order: seq<Path>) {
    Distinct(order) && forall m :: m in order <==> Reaches(files, entry, m)
  }

  ghost predicate DependenciesFirst(files: Files, order: seq<Path>) {
    forall i, d :: 0 <= i < |order| && DependsOn(files, order[i], d) ==> d in order[..i]
  }

  /** collectModules. It stops exactly when a reachable module cannot be bundled. */
  method CollectModules(files: Files, entry: Path) returns (r: Collected)
    ensures r.Modules? <==> forall m :: Reaches(files, entry, m) ==> FaultOf(files, m).None?
    ensures r.Modules? ==> Lists(files, entry, r.order)
    ensures r.Modules? ==> (DependenciesFirst(files, r.order) <==> Acyclic(files, entry))
    ensures r.Modules? ==> SiblingsInOrder(files, entry, {}, r.order)
    ensures r.Stopped? ==> FaultOf(files, r.failure.file) == Some(r.failure.fault)
                           && Reaches(files, entry, r.failure.file)
  {
    var c := new Collector(files);
    var failure := c.Visit(entry);
    if failure.Some? {
      return Stopped(failure.value);
    }
    CompleteWalk(files, entry, c.Now());
    CompleteOrder(files, entry, c.order);
    return Modules(c.order);
  }

  lemma CompleteWalk(files: Files, entry: Path, w: Walk)
    requires Added(files, Walk({}, []), w, entry) && entry in w.seen
    ensures Lists(files, entry, w.order)
    ensures forall m :: m in w.order ==> FaultOf(files, m).None?
    ensures forall i :: 0 <= i < |w.order| ==> Placed(files, w.order[..i], w.order[i])
  {
    assert w.order[0..] == w.order;
    forall m | m in w.order ensures Reaches(files, entry, m) && FaultOf(files, m).None? {
      var i :| 0 <= i < |w.order| && w.order[i] == m;
      assert Finished(files, w, i, entry);
    }
    forall m | Reaches(files, entry, m) ensures m in w.order {
      var walk :| Joins(files, walk, entry, m);
      WalkStaysInside(files, w, entry, walk);
    }
    forall i | 0 <= i < |w.order| ensures Placed(files, w.order[..i], w.order[i]) {
      assert Finished(files, w, i, entry);
    }
  }

  lemma {:induction false} WalkStaysInside(files: Files, w: Walk, entry: Path, walk: seq<Path>)
    requires Added(files, Walk({}, []), w, entry) && entry in w.seen
    requires IsPath(files, walk) && walk[0] == entry
    ensures walk[|walk| - 1] in w.seen
  {
    var n := |walk|;
    if n > 1 {
      WalkStaysInside(files, w, entry, walk[..n - 1]);
      var m := walk[n - 2];
      assert m in w.order[0..];
      var i :| 0 <= i < |w.order| && w.order[i] == m;
      assert Finished(files, w, i, entry);
      assert DependsOn(files, m, walk[n - 1]);
    }
  }

  /** The order puts every dependency first exactly when the reachable graph has no cycle. */
  lemma CompleteOrder(files: Files, entry: Path, order: seq<Path>)
    requires Lists(files, entry, order)
    requires forall i :: 0 <= i < |order| ==> Placed(files, order[..i], order[i])
    ensures DependenciesFirst(files, order) <==> Acyclic(files, entry)
  {
    if Acyclic(files, entry) {
      forall i, d | 0 <= i < |order| && DependsOn(files, order[i], d) ensures d in order[..i] {
        assert order[i] in order;
        assert Placed(files, order[..i], order[i]);
      }
    }
    if DependenciesFirst(files, order) {
      forall m, d | Reaches(files, entry, m) && DependsOn(files, m, d) ensures !Reaches(files, d, m) {
        if Reaches(files, d, m) {
          assert m in order;
          var i :| 0 <= i < |order| && order[i] == m;
          assert d in order[..i];
          var j :| 0 <= j < i && order[j] == d;
          var walk :| Joins(files, walk, d, m);
          WalkGoesDown(files, order, walk, j);
          assert false;
        }
      }
    }
  }

  /** Where dependencies come first, a walk along dependencies only moves towards the front. */
  lemma {:induction false} WalkGoesDown(files: Files, order: seq<Path>, walk: seq<Path>, j: nat)
    requires Distinct(order) && DependenciesFirst(files, order)
    requires IsPath(files, walk) && j < |order| && walk[0] == order[j]
    ensures exists k :: 0 <= k <= j && order[k] == walk[|walk| - 1]
  {
    var n := |walk|;
    if n > 1 {
      WalkGoesDown(files, order, walk[..n - 1], j);
      var k :| 0 <= k <= j && order[k] == walk[n - 2];
      assert DependsOn(files, order[k], walk[n - 1]);
      assert walk[n - 1] in order[..k];
    }
  }

  // ----- verifyImports and bundleJS -----

  predicate ImportHolds(files: Files, modules: seq<Path>, imp: Import) {
    imp.Named? ==> imp.target in modules && imp.target in files && imp.name in files[imp.target].exports
  }

  method VerifyImports(files: Files, modules: seq<Path>) returns (ok: bool)
    requires forall m :: m in modules ==> m in files
    ensures ok <==> forall m, imp :: m in modules && imp in files[m].imports ==> ImportHolds(files, modules, imp)
  {
    for i := 0 to |modules|
      invariant forall j, imp :: 0 <= j < i && imp in files[modules[j]].imports ==> ImportHolds(files, modules, imp)
    {
      var imports := files[modules[i]].imports;
      for k := 0 to |imports|
        invariant forall n :: 0 <= n < k ==> ImportHolds(files, modules, imports[n])
      {
        if !ImportHolds(files, modules, imports[k]) {
          assert modules[i] in modules && imports[k] in files[modules[i]].imports;
          return false;
        }
      }
    }
    return true;
  }

  /** Every top-level declaration of the bundle, with the module it stands in. */
  function Declarations(files: Files, modules: seq<Path>): seq<(string, Path)>
    requires forall m :: m in modules ==> m in files
  {
    if modules == [] then []
    else
      var last := modules[|modules| - 1];
      Declarations(files, modules[..|modules| - 1]) + Tagged(files[last].decls, last)
  }

  function Tagged(decls: seq<string>, m: Path): (t: seq<(string, Path)>)
    ensures |t| == |decls| && forall i :: 0 <= i < |t| ==> t[i] == (decls[i], m)
  {
    seq(|decls|, i requires 0 <= i < |decls| => (decls[i], m))
  }

  predicate NoDuplicates(d: seq<(string, Path)>) {
    forall i, j :: 0 <= i < j < |d| ==> d[i].0 != d[j].0
  }

  predicate Declared(d: seq<(string, Path)>, name: string, m: Path) {
    (name, m) in d
  }

  predicate Owns(owners: map<string, Path>, d: seq<(string, Path)>) {
    && (forall i :: 0 <= i < |d| ==> d[i].0 in owners && owners[d[i].0] == d[i].1)
    && (forall name :: name in owners ==> Declared(d, name, owners[name]))
  }

  lemma OwnOne(owners: map<string, Path>, d: seq<(string, Path)>, name: string, m: Path)
    requires NoDuplicates(d) && Owns(owners, d)
    ensures name in owners <==> !NoDuplicates(d + [(name, m)])
    ensures name !in owners ==> Owns(owners[name := m], d + [(name, m)])
  {
    var d' := d + [(name, m)];
    if name in owners {
      assert Declared(d, name, owners[name]);
      var j :| 0 <= j < |d| && d[j] == (name, owners[name]);
      assert d'[j].0 == d'[|d|].0;
    } else {
      var owners' := owners[name := m];
      forall n | n in owners' ensures Declared(d', n, owners'[n]) {
        if n == name {
          assert d'[|d|] == (name, m);
        } else {
          assert Declared(d, n, owners[n]);
        }
      }
    }
  }

  lemma DuplicatesStay(d: seq<(string, Path)>, all: seq<(string, Path)>)
    requires d <= all && !NoDuplicates(d)
    ensures !NoDuplicates(all)
  {
  }

  lemma {:induction false} DeclarationsPrefix(files: Files, modules: seq<Path>, i: nat)
    requires (forall m :: m in modules ==> m in files) && i <= |modules|
    ensures Declarations(files, modules[..i]) <= Declarations(files, modules)
    decreases |modules|
  {
    if i < |modules| {
      var front := modules[..|modules| - 1];
      assert front[..i] == modules[..i];
      DeclarationsPrefix(files, front, i);
    } else {
      assert modules[..i] == modules;
    }
  }

  /** The top-level names of one module join the owners collected so far. */
  method Claim(decls: seq<string>, m: Path, owners0: map<string, Path>, ghost before: seq<(string, Path)>)
    returns (ok: bool, owners: map<string, Path>)
    requires NoDuplicates(before) && Owns(owners0, before)
    ensures ok <==> NoDuplicates(before + Tagged(decls, m))
    ensures ok ==> Owns(owners, before + Tagged(decls, m))
  {
    hide NoDuplicates, Owns;
    owners := owners0;
    assert before + Tagged([], m) == before;
    for k := 0 to |decls|
      invariant NoDuplicates(before + Tagged(decls[..k], m)) && Owns(owners, before + Tagged(decls[..k], m))
    {
      ghost var next := before + Tagged(decls[..k + 1], m);
      assert next == before + Tagged(decls[..k], m) + [(decls[k], m)];
      OwnOne(owners, before + Tagged(decls[..k], m), decls[k], m);
      if decls[k] in owners {
        DuplicatesStay(next, before + Tagged(decls, m));
        return false, owners;
      }
      owners := owners[decls[k] := m];
    }
    assert decls[..|decls|] == decls;
    ok := true;
  }

  /** bundleJS. `chunks` lists the modules whose bodies the output holds, in order. */
  method BundleJS(files: Files, modules: seq<Path>) returns (ok: bool, owners: map<string, Path>, chunks: seq<Path>)
    requires forall m :: m in modules ==> m in files
    ensures ok <==> NoDuplicates(Declarations(files, modules))
    ensures ok ==> Owns(owners, Declarations(files, modules)) && chunks == modules
  {
    owners, chunks := map[], [];
    for i := 0 to |modules|
      invariant chunks == modules[..i]
      invariant NoDuplicates(Declarations(files, modules[..i])) && Owns(owners, Declarations(files, modules[..i]))
    {
      assert modules[..i + 1][..i] == modules[..i];
      ok, owners := Claim(files[modules[i]].decls, modules[i], owners, Declarations(files, modules[..i]));
      if !ok {
        DeclarationsPrefix(files, modules, i + 1);
        DuplicatesStay(Declarations(files, modules[..i + 1]), Declarations(files, modules));
        return;
      }
      chunks := chunks + [modules[i]];
    }
    assert modules[..|modules|] == modules;
    ok := true;
  }

  // ----- Linking -----

  predicate ExportsAreDeclared(files: Files) {
    forall m, name :: m in files && name in files[m].exports ==> name in files[m].decls
  }

  /** Where the module system finds `name` as written in module `m`: its own declaration, else the
      target of the import that names it. */
  predicate ModuleResolves(files: Files, m: Path, name: string, target: Path)
    requires m in files
  {
    if name in files[m].decls then target == m
    else target in files && name in files[target].exports && Named(name, target) in files[m].imports
  }

  /** The three build steps went through. */
  ghost predicate Built(files: Files, entry: Path, modules: seq<Path>, owners: map<string, Path>) {
    && Lists(files, entry, modules)
    && (forall m :: m in modules ==> m in files)
    && (forall m, imp :: m in modules && imp in files[m].imports ==> ImportHolds(files, modules, imp))
    && NoDuplicates(Declarations(files, modules)) && Owns(owners, Declarations(files, modules))
  }

  lemma {:induction false} DeclarationsAre(files: Files, modules: seq<Path>, name: string, m: Path)
    requires forall x :: x in modules ==> x in files
    ensures (name, m) in Declarations(files, modules) <==> m in modules && m in files && name in files[m].decls
    decreases |modules|
  {
    if modules == [] {
    } else {
      var n := |modules| - 1;
      DeclarationsAre(files, modules[..n], name, m);
      assert modules == modules[..n] + [modules[n]];
      var tagged := Tagged(files[modules[n]].decls, modules[n]);
      assert (name, m) in tagged <==> m == modules[n] && name in files[m].decls by {
        if m == modules[n] && name in files[m].decls {
          var i :| 0 <= i < |files[m].decls| && files[m].decls[i] == name;
          assert tagged[i] == (name, m);
        }
      }
    }
  }

  /** In the bundle a name has one declaration at most, and `owners` gives its module. */
  lemma FlatScope(files: Files, entry: Path, modules: seq<Path>, owners: map<string, Path>, name: string, m: Path)
    requires Built(files, entry, modules, owners)
    ensures name in owners && owners[name] == m <==> m in modules && name in files[m].decls
  {
    DeclarationsAre(files, modules, name, m);
    if name in owners {
      assert Declared(Declarations(files, modules), name, owners[name]);
    }
  }

  /** Every name a module declares or imports means the same declaration in the flat scope. */
  lemma LinkingPreservesResolution(files: Files, entry: Path, modules: seq<Path>, owners: map<string, Path>,
                                   m: Path, name: string, target: Path)
    requires ExportsAreDeclared(files) && Built(files, entry, modules, owners)
    requires m in modules && ModuleResolves(files, m, name, target)
    ensures name in owners && owners[name] == target
    ensures forall other :: other in modules && name in files[other].decls <==> other == target
  {
    if name !in files[m].decls {
      assert ImportHolds(files, modules, Named(name, target));
    }
    FlatScope(files, entry, modules, owners, name, target);
    forall other ensures other in modules && name in files[other].decls <==> other == target {
      FlatScope(files, entry, modules, owners, name, other);
    }
  }

  /** The target of the first import that names `name`. */
  function ImportedFrom(imports: seq<Import>, name: string): (target: Option<Path>)
    ensures target.None? <==> forall i :: 0 <= i < |imports| ==> !(imports[i].Named? && imports[i].name == name)
    ensures target.Some? ==> Named(name, target.value) in imports
  {
    if imports == [] then None
    else if imports[0].Named? && imports[0].name == name then Some(imports[0].target)
    else ImportedFrom(imports[1..], name)
  }

  /** What `name`, written in module `m`, means to the module system: a module's declaration, or None for
      a free name, which the surroundings of all modules explain. */
  function ModuleMeaning(files: Files, m: Path, name: string): Option<Path>
    requires m in files
  {
    if name in files[m].decls then Some(m) else ImportedFrom(files[m].imports, name)
  }

  /** What it means anywhere in the bundle. */
  function FlatMeaning(owners: map<string, Path>, name: string): Option<Path> {
    if name in owners then Some(owners[name]) else None
  }

  /** The bundle keeps the meaning of a name exactly when its module declares or imports it, or no bundled
      module declares it; a free name that another module declares is captured. */
  lemma FreeNamesAreCaptured(files: Files, entry: Path, modules: seq<Path>, owners: map<string, Path>,
                             m: Path, name: string)
    requires ExportsAreDeclared(files) && Built(files, entry, modules, owners) && m in modules
    ensures FlatMeaning(owners, name) == ModuleMeaning(files, m, name) <==>
              ModuleMeaning(files, m, name).Some? || forall other :: other in modules ==> name !in files[other].decls
  {
    var meaning := ModuleMeaning(files, m, name);
    if meaning.Some? {
      if name !in files[m].decls {
        assert ImportHolds(files, modules, Named(name, meaning.value));
      }
      LinkingPreservesResolution(files, entry, modules, owners, m, name, meaning.value);
    } else {
      forall other | other in modules ensures name in files[other].decls ==> name in owners {
        FlatScope(files, entry, modules, owners, name, other);
      }
      if name in owners {
        FlatScope(files, entry, modules, owners, name, owners[name]);
      }
    }
  }

  datatype BuildResult = Bundle(modules: seq<Path>, owners: map<string, Path>) | BuildFailed

  predicate NoRepeats(decls: seq<string>) {
    forall i, j :: 0 <= i < j < |decls| ==> decls[i] != decls[j]
  }

  predicate Disjoint(files: Files, m: Path, other: Path)
    requires m in files && other in files
  {
    forall name :: name in files[m].decls ==> name !in files[other].decls
  }

  /** Declarations are free of duplicates when each module's are and no two modules share a name. */
  lemma {:induction false} DuplicateFree(files: Files, modules: seq<Path>)
    requires Distinct(modules) && forall m :: m in modules ==> m in files
    ensures NoDuplicates(Declarations(files, modules)) <==>
            && (forall m :: m in modules ==> NoRepeats(files[m].decls))
            && (forall m, other :: m in modules && other in modules && m != other ==> Disjoint(files, m, other))
    decreases |modules|
  {
    if modules == [] {
    } else {
      var n := |modules| - 1;
      var front, last := modules[..n], modules[n];
      assert modules == front + [last] && last !in front;
      DuplicateFree(files, front);
      var d, t := Declarations(files, front), Tagged(files[last].decls, last);
      NoDuplicatesConcat(d, t);
      TaggedRepeats(files[last].decls, last);
      CrossNames(files, front, last);
      assert forall m :: m in modules <==> m in front || m == last;
      assert forall m :: m in front ==> (Disjoint(files, m, last) <==> Disjoint(files, last, m));
    }
  }

  lemma NoDuplicatesConcat(d: seq<(string, Path)>, t: seq<(string, Path)>)
    ensures NoDuplicates(d + t) <==>
            NoDuplicates(d) && NoDuplicates(t) && forall i, j :: 0 <= i < |d| && 0 <= j < |t| ==> d[i].0 != t[j].0
  {
    var all := d + t;
    assert forall i :: 0 <= i < |d| ==> all[i] == d[i];
    assert forall j :: 0 <= j < |t| ==> all[|d| + j] == t[j];
    if NoDuplicates(all) {
      forall i, j | 0 <= i < |d| && 0 <= j < |t| ensures d[i].0 != t[j].0 {
        assert all[i].0 != all[|d| + j].0;
      }
      forall i, j | 0 <= i < j < |t| ensures t[i].0 != t[j].0 {
        assert all[|d| + i].0 != all[|d| + j].0;
      }
    }
  }

  lemma TaggedRepeats(decls: seq<string>, m: Path)
    ensures NoDuplicates(Tagged(decls, m)) <==> NoRepeats(decls)
  {
    var t := Tagged(decls, m);
    if NoDuplicates(t) {
      forall i, j | 0 <= i < j < |decls| ensures decls[i] != decls[j] {
        assert t[i].0 != t[j].0;
      }
    }
  }

  lemma CrossNames(files: Files, front: seq<Path>, last: Path)
    requires (forall m :: m in front ==> m in files) && last in files
    ensures var d, t := Declarations(files, front), Tagged(files[last].decls, last);
            (forall i, j :: 0 <= i < |d| && 0 <= j < |t| ==> d[i].0 != t[j].0)
            <==> forall m :: m in front ==> Disjoint(files, m, last)
  {
    var d, t := Declarations(files, front), Tagged(files[last].decls, last);
    if forall i, j :: 0 <= i < |d| && 0 <= j < |t| ==> d[i].0 != t[j].0 {
      forall m, name | m in front && name in files[m].decls ensures name !in files[last].decls {
        DeclarationsAre(files, front, name, m);
        var i :| 0 <= i < |d| && d[i] == (name, m);
        assert forall j :: 0 <= j < |t| ==> d[i].0 != t[j].0;
        assert forall j :: 0 <= j < |files[last].decls| ==> files[last].decls[j] == t[j].0;
      }
    }
    if forall m :: m in front ==> Disjoint(files, m, last) {
      forall i, j | 0 <= i < |d| && 0 <= j < |t| ensures d[i].0 != t[j].0 {
        DeclarationsAre(files, front, d[i].0, d[i].1);
        assert d[i] == (d[i].0, d[i].1) && d[i] in d;
        assert Disjoint(files, d[i].1, last);
        assert files[last].decls[j] == t[j].0;
      }
    }
  }

  /** What the sources must meet for the build to go through, said without any order of modules. */
  ghost predicate Buildable(files: Files, entry: Path) {
    && (forall m :: Reaches(files, entry, m) ==> FaultOf(files, m).None? && NoRepeats(files[m].decls))
    && (forall m, imp :: Reaches(files, entry, m) && imp in files[m].imports && imp.Named? ==>
          Reaches(files, entry, imp.target) && imp.name in files[imp.target].exports)
    && (forall m, other :: Reaches(files, entry, m) && Reaches(files, entry, other) && m != other ==>
          Disjoint(files, m, other))
  }

  lemma BuildableAsListed(files: Files, entry: Path, modules: seq<Path>)
    requires Lists(files, entry, modules)
    requires (forall m :: m in modules ==> m in files) && (forall m :: m in modules ==> FaultOf(files, m).None?)
    ensures Buildable(files, entry) <==>
            && (forall m, imp :: m in modules && imp in files[m].imports ==> ImportHolds(files, modules, imp))
            && NoDuplicates(Declarations(files, modules))
  {
    hide Reaches, Disjoint, NoRepeats, NoDuplicates, Declarations, FaultOf;
    DuplicateFree(files, modules);
    assert forall m :: m in modules <==> Reaches(files, entry, m);
    if Buildable(files, entry) {
      forall m, imp | m in modules && imp in files[m].imports ensures ImportHolds(files, modules, imp) {
        assert Reaches(files, entry, m);
      }
    }
    if (forall m, imp :: m in modules && imp in files[m].imports ==> ImportHolds(files, modules, imp))
       && NoDuplicates(Declarations(files, modules)) {
      forall m, imp | Reaches(files, entry, m) && imp in files[m].imports && imp.Named?
        ensures Reaches(files, entry, imp.target) && imp.name in files[imp.target].exports
      {
        assert ImportHolds(files, modules, imp);
      }
    }
  }

  /** The script's build of the JavaScript part goes through exactly for buildable sources. */
  method Build(files: Files, entry: Path) returns (r: BuildResult)
    ensures r.Bundle? <==> Buildable(files, entry)
    ensures r.Bundle? ==> Built(files, entry, r.modules, r.owners)
  {
    var c := CollectModules(files, entry);
    if c.Stopped? {
      return BuildFailed;
    }
    var modules := c.order;
    forall m | m in modules ensures m in files && FaultOf(files, m).None? {
      assert Reaches(files, entry, m);
    }
    BuildableAsListed(files, entry, modules);
    var verified := VerifyImports(files, modules);
    if !verified {
      return BuildFailed;
    }
    var ok, owners, chunks := BundleJS(files, modules);
    if !ok {
      return BuildFailed;
    }
    r := Bundle(modules, owners);
  }

  // ----- A build that captures a name -----

  /** The module main uses the global console; the module lib, which it imports, has a function of that
      name for itself. */
  function CapturingFiles(): Files {
    map["main" := Source(false, [Local("lib")], [], {}, []), "lib" := Source(false, [], [], {}, ["console"])]
  }

  lemma ReachedFromMain(p: Path)
    requires Reaches(CapturingFiles(), "main", p)
    ensures p == "main" || p == "lib"
  {
    var files := CapturingFiles();
    var walk :| Joins(files, walk, "main", p);
    if |walk| > 1 {
      assert DependsOn(files, walk[0], walk[1]);
      assert |walk| > 2 ==> DependsOn(files, walk[1], walk[2]);
    }
  }

  lemma CapturingFilesBuild()
    ensures Buildable(CapturingFiles(), "main") && Reaches(CapturingFiles(), "main", "lib")
  {
    var files := CapturingFiles();
    ReachesSelf(files, "main");
    ReachesStep(files, "main", "main", "lib");
    forall m | Reaches(files, "main", m)
      ensures (m == "main" || m == "lib") && FaultOf(files, m).None? && NoRepeats(files[m].decls)
    {
      ReachedFromMain(m);
    }
  }

  /** The build accepts the two modules, and main's free name then means lib's declaration. */
  method CaptureRun() returns (r: BuildResult)
    ensures r.Bundle? && "main" in r.modules
    ensures ModuleMeaning(CapturingFiles(), "main", "console") == None
    ensures FlatMeaning(r.owners, "console") == Some("lib")
  {
    hide Reaches, Lists, Buildable, NoDuplicates, Declarations, Owns;
    CapturingFilesBuild();
    r := Build(CapturingFiles(), "main");
    ListedInBuild(r.modules, r.owners);
    FlatScope(CapturingFiles(), "main", r.modules, r.owners, "console", "lib");
  }

  lemma ListedInBuild(modules: seq<Path>, owners: map<string, Path>)
    requires Built(CapturingFiles(), "main", modules, owners)
    ensures "main" in modules && "lib" in modules
  {
    CapturingFilesBuild();
    ReachesSelf(CapturingFiles(), "main");
  }
}
