/** Import discovery: the work list that opens, parses and links every file a root file leads to. */
module ImportClosure {
  import opened QualTypes
  import opened Diagnostics

  datatype ImportDecl = ImportDecl(isFile: bool, path: string)

  /** What the world outside answers: which absolute paths can be opened, and the imports found in each; what the
      directory of a path is, and how a relative path is appended to one. */
  datatype World = World(open: string -> Option<seq<ImportDecl>>, baseDir: string -> string, append: (string, string) -> string) {
    function Resolve(from: string, to: string): string {
      append(baseDir(from), to)
    }
  }

  // The import graph, read off the world alone.

  /** The openable targets of these file imports, in order and with repeats. */
  function TargetsOf(w: World, from: string, imports: seq<ImportDecl>): seq<string> {
    if imports == [] then [] else
      var before, i := TargetsOf(w, from, imports[..|imports| - 1]), imports[|imports| - 1];
      before + if i.isFile && w.open(w.Resolve(from, i.path)).Some? then [w.Resolve(from, i.path)] else []
  }

  function Targets(w: World, path: string): seq<string> {
    if w.open(path).None? then [] else TargetsOf(w, path, w.open(path).value)
  }

  /** A chain of imports from the root to a path. */
  ghost predicate IsWalk(w: World, root: string, walk: seq<string>) {
    && walk != [] && walk[0] == root
    && forall i :: 0 <= i < |walk| - 1 ==> walk[i + 1] in Targets(w, walk[i])
  }

  ghost predicate Reachable(w: World, root: string, path: string) {
    exists walk :: IsWalk(w, root, walk) && walk[|walk| - 1] == path
  }

  lemma {:induction false} RootIsReachable(w: World, root: string)
    ensures Reachable(w, root, root)
  {
    assert IsWalk(w, root, [root]) && [root][|[root]| - 1] == root;
  }

  lemma {:induction false} TargetIsReachable(w: World, root: string, path: string, target: string)
    requires Reachable(w, root, path) && target in Targets(w, path)
    ensures Reachable(w, root, target)
  {
    var walk :| IsWalk(w, root, walk) && walk[|walk| - 1] == path;
    var longer := walk + [target];
    assert IsWalk(w, root, longer) && longer[|longer| - 1] == target;
  }

  lemma {:induction false} ClosedHoldsReachable(w: World, root: string, closed: set<string>, walk: seq<string>)
    requires root in closed && (forall p :: p in closed ==> forall t :: t in Targets(w, p) ==> t in closed)
    requires IsWalk(w, root, walk)
    ensures walk[|walk| - 1] in closed
  {
    if |walk| > 1 {
      var shorter := walk[..|walk| - 1];
      assert IsWalk(w, root, shorter);
      ClosedHoldsReachable(w, root, closed, shorter);
      assert walk[|walk| - 2 + 1] in Targets(w, walk[|walk| - 2]);
    }
  }

  /** The reports for a file: one for each file import that cannot be opened. */
  function FailuresOf(w: World, from: string, imports: seq<ImportDecl>): seq<Diagnostic> {
    if imports == [] then [] else
      var before, i := FailuresOf(w, from, imports[..|imports| - 1]), imports[|imports| - 1];
      before + if i.isFile && w.open(w.Resolve(from, i.path)).None? then [FailedImport(w.Resolve(from, i.path))] else []
  }

  function Failures(w: World, order: seq<string>): seq<Diagnostic> {
    if order == [] then [] else
      var p := order[|order| - 1];
      Failures(w, order[..|order| - 1]) + if w.open(p).None? then [] else FailuresOf(w, p, w.open(p).value)
  }

  // Both lists in terms of the imports as they are written.

  predicate Opens(w: World, from: string, i: ImportDecl) {
    i.isFile && w.open(w.Resolve(from, i.path)).Some?
  }

  predicate Fails(w: World, from: string, i: ImportDecl) {
    i.isFile && w.open(w.Resolve(from, i.path)).None?
  }

  /** Increasing positions in a list of imports. */
  predicate Ascending(positions: seq<nat>, imports: seq<ImportDecl>) {
    && (forall k :: 0 <= k < |positions| ==> positions[k] < |imports|)
    && forall j, k :: 0 <= j < k < |positions| ==> positions[j] < positions[k]
  }

  /** The links are the file imports that open, each once and in order. */
  lemma {:induction false} TargetsExactly(w: World, from: string, imports: seq<ImportDecl>) returns (positions: seq<nat>)
    ensures Ascending(positions, imports) && |positions| == |TargetsOf(w, from, imports)|
    ensures forall i :: 0 <= i < |imports| ==> (i in positions <==> Opens(w, from, imports[i]))
    ensures forall k :: 0 <= k < |positions| ==> TargetsOf(w, from, imports)[k] == w.Resolve(from, imports[positions[k]].path)
  {
    positions := [];
    if imports != [] {
      var init, n := imports[..|imports| - 1], |imports| - 1;
      positions := TargetsExactly(w, from, init);
      if Opens(w, from, imports[n]) {
        positions := positions + [n];
      }
    }
  }

  /** The failures are the file imports that do not open, each once and in order. */
  lemma {:induction false} FailuresExactly(w: World, from: string, imports: seq<ImportDecl>) returns (positions: seq<nat>)
    ensures Ascending(positions, imports) && |positions| == |FailuresOf(w, from, imports)|
    ensures forall i :: 0 <= i < |imports| ==> (i in positions <==> Fails(w, from, imports[i]))
    ensures forall k :: 0 <= k < |positions| ==>
              FailuresOf(w, from, imports)[k] == FailedImport(w.Resolve(from, imports[positions[k]].path))
  {
    positions := [];
    if imports != [] {
      var init, n := imports[..|imports| - 1], |imports| - 1;
      positions := FailuresExactly(w, from, init);
      if Fails(w, from, imports[n]) {
        positions := positions + [n];
      }
    }
  }

  /** A file that has been opened; `imports` is what parsing its text yields. */
  datatype SourceFile = SourceFile(absPath: string, imports: seq<ImportDecl>)

  class SourceManager {
    var openFiles: map<string, SourceFile>

    constructor ()
      ensures openFiles == map[]
    {
      openFiles := map[];
    }

    /** The file must not be open already, as the method asserts. */
    method OpenFile(w: World, absPath: string) returns (r: Option<SourceFile>)
      requires absPath !in openFiles
      modifies this
      ensures match w.open(absPath)
              case None => r == None && openFiles == old(openFiles)
              case Some(imports) =>
                r == Some(SourceFile(absPath, imports)) && openFiles == old(openFiles)[absPath := SourceFile(absPath, imports)]
    {
      var result := w.open(absPath);
      if result.None? {
        return None;
      }
      r := Some(SourceFile(absPath, result.value));
      openFiles := openFiles[absPath := r.value];
    }
  }

  class TranslationUnit {
    const file: SourceFile
    var programAST: Option<seq<ImportDecl>>
    var importedFiles: seq<TranslationUnit>

    constructor (file: SourceFile)
      ensures this.file == file && programAST == None && importedFiles == []
    {
      this.file, programAST, importedFiles := file, None, [];
    }

    /** Each unit is parsed once. */
    method Parse()
      requires programAST == None
      modifies this`programAST
      ensures programAST == Some(file.imports)
    {
      programAST := Some(file.imports);
    }

    method AddImportedFiles(unit: TranslationUnit)
      modifies this`importedFiles
      ensures importedFiles == old(importedFiles) + [unit]
    {
      importedFiles := importedFiles + [unit];
    }
  }

  /** Units by path: each is for the file the manager has open at that path, and different paths have different units. */
  ghost predicate Agree(units: map<string, TranslationUnit>, files: map<string, SourceFile>, w: World) {
    && units.Keys == files.Keys
    && (forall p :: p in units ==> units[p].file == files[p] && files[p].absPath == p && w.open(p) == Some(files[p].imports))
  }

  /** The unit links to the units of these targets, in order. */
  ghost predicate LinksTo(u: TranslationUnit, targets: seq<string>, units: map<string, TranslationUnit>)
    reads u
  {
    && |u.importedFiles| == |targets|
    && forall i :: 0 <= i < |targets| ==> targets[i] in units && u.importedFiles[i] == units[targets[i]]
  }

  ghost predicate Linked(w: World, units: map<string, TranslationUnit>, done: set<string>)
    reads units.Values
  {
    forall p :: p in done ==> p in units && units[p].programAST.Some? && LinksTo(units[p], Targets(w, p), units)
  }

  ghost predicate Untouched(units: map<string, TranslationUnit>, done: set<string>)
    reads units.Values
  {
    forall p :: p in units && p !in done ==> units[p].programAST == None && units[p].importedFiles == []
  }

  /** The queue holds each unit still to be done exactly once. */
  ghost predicate Queued(queue: seq<TranslationUnit>, units: map<string, TranslationUnit>, done: set<string>) {
    && (forall u :: u in queue ==> u.file.absPath in units && u.file.absPath !in done && units[u.file.absPath] == u)
    && (forall p :: p in units && p !in done ==> units[p] in queue)
    && (forall i, j :: 0 <= i < j < |queue| ==> queue[i] != queue[j])
  }

  /** Everything found so far is reachable. */
  ghost predicate Found(w: World, root: string, paths: set<string>) {
    forall p :: p in paths ==> Reachable(w, root, p)
  }

  /** These paths are all that can be reached, and perhaps more. */
  ghost predicate HoldsReachable(w: World, root: string, paths: set<string>) {
    forall p :: Reachable(w, root, p) ==> p in paths
  }

  /** Where every file that can be reached imports some path longer than its own, no finite set holds what can be reached. */
  lemma {:induction false} LengtheningNeverCloses(w: World, root: string, paths: set<string>)
    requires forall p :: Reachable(w, root, p) ==> Lengthens(w, p)
    ensures !HoldsReachable(w, root, paths)
  {
    hide Targets, Reachable, Lengthens;
    if HoldsReachable(w, root, paths) {
      RootIsReachable(w, root);
      var reached := set p | p in paths && Reachable(w, root, p);
      var end := Longest(reached, root);
      LongestDoesNotLengthen(w, root, paths, end);
    }
  }

  lemma {:induction false} LongestDoesNotLengthen(w: World, root: string, paths: set<string>, end: string)
    requires HoldsReachable(w, root, paths) && Reachable(w, root, end)
    requires forall q :: q in paths && Reachable(w, root, q) ==> |q| <= |end|
    ensures !Lengthens(w, end)
  {
    hide Targets, Reachable;
    forall t | t in Targets(w, end)
      ensures |t| <= |end|
    {
      TargetIsReachable(w, root, end, t);
    }
  }

  ghost predicate Lengthens(w: World, p: string) {
    exists t :: t in Targets(w, p) && |t| > |p|
  }

  lemma {:induction false} Longest(paths: set<string>, p: string) returns (longest: string)
    requires p in paths
    ensures longest in paths && forall q :: q in paths ==> |q| <= |longest|
    decreases |paths|
  {
    longest := p;
    assert paths == (paths - {p}) + {p};
    if paths != {p} {
      var other :| other in paths - {p};
      longest := Longest(paths - {p}, other);
      if |p| > |longest| {
        longest := p;
      }
    }
  }

  // A file that imports itself through its own directory.

  /** Any number of steps to the same directory. */
  predicate Dots(s: string) {
    s == "" || (|s| >= 2 && s[0] == '/' && s[1] == '.' && Dots(s[2..]))
  }

  /** The ways to write the path of the file `a` in the directory `d`. */
  predicate NamesFile(p: string) {
    |p| >= 3 && p[0] == 'd' && p[|p| - 2] == '/' && p[|p| - 1] == 'a' && Dots(p[1..|p| - 2])
  }

  /** One file, `d/a`, which imports `./a`, where paths may have any length. Where they may not, the import fails once the
      path is too long to open. */
  function SelfImport(): World {
    World(p => if NamesFile(p) then Some([ImportDecl(true, "./a")]) else None,
          p => if |p| >= 2 then p[..|p| - 2] else p,
          (dir: string, to: string) => dir + "/" + to)
  }

  lemma {:induction false} MoreDots(s: string)
    requires Dots(s)
    ensures Dots(s + "/.")
  {
    if s == "" {
      assert "/."[2..] == "";
    } else {
      assert (s + "/.")[2..] == s[2..] + "/.";
      MoreDots(s[2..]);
    }
  }

  lemma {:induction false} ImportsLonger(p: string)
    requires NamesFile(p)
    ensures Lengthens(SelfImport(), p) && forall t :: t in Targets(SelfImport(), p) ==> NamesFile(t)
  {
    var w, t := SelfImport(), p[..|p| - 2] + "/./a";
    MoreDots(p[1..|p| - 2]);
    assert t[1..|t| - 2] == p[1..|p| - 2] + "/.";
    var i := ImportDecl(true, "./a");
    assert w.open(p) == Some([i]) && [i][..0] == [];
    assert w.Resolve(p, i.path) == t by {
      assert p[..|p| - 2] + "/" + "./a" == t;
    }
    assert w.open(t).Some?;
    assert TargetsOf(w, p, [i]) == TargetsOf(w, p, []) + [t];
    assert t in Targets(w, p);
  }

  lemma {:induction false} WalkNamesFile(walk: seq<string>)
    requires IsWalk(SelfImport(), "d/a", walk)
    ensures NamesFile(walk[|walk| - 1])
  {
    hide Targets, NamesFile;
    if |walk| == 1 {
      RootNamesFile();
    } else {
      var shorter, n := walk[..|walk| - 1], |walk| - 2;
      assert IsWalk(SelfImport(), "d/a", shorter);
      WalkNamesFile(shorter);
      assert walk[n + 1] in Targets(SelfImport(), walk[n]);
      ImportsLonger(walk[n]);
    }
  }

  lemma {:induction false} RootNamesFile()
    ensures NamesFile("d/a")
  {
    assert "d/a"[1..1] == "";
  }

  lemma {:induction false} SelfImportNeverCloses(paths: set<string>)
    ensures !HoldsReachable(SelfImport(), "d/a", paths)
  {
    hide NamesFile, HoldsReachable, Targets, Lengthens;
    forall p | Reachable(SelfImport(), "d/a", p)
      ensures Lengthens(SelfImport(), p)
    {
      var walk :| IsWalk(SelfImport(), "d/a", walk) && walk[|walk| - 1] == p;
      WalkNamesFile(walk);
      ImportsLonger(p);
    }
    LengtheningNeverCloses(SelfImport(), "d/a", paths);
  }

  /** The sequence lists each member of the set once. */
  ghost predicate EachOnce(order: seq<string>, paths: set<string>) {
    (forall p :: p in order <==> p in paths) && forall i, j :: 0 <= i < j < |order| ==> order[i] != order[j]
  }

  lemma {:induction false} OnceNone(w: World)
    ensures EachOnce([], {}) && Failures(w, []) == []
  {
  }

  lemma {:induction false} OnceMore(order: seq<string>, paths: set<string>, p: string)
    requires EachOnce(order, paths) && p !in paths
    ensures EachOnce(order + [p], paths + {p})
  {
  }

  // Breadth first: the order is that in which the files are first met.

  /** The first occurrence of each path. */
  function Firsts(paths: seq<string>): seq<string> {
    if paths == [] then [] else
      var before, p := paths[..|paths| - 1], paths[|paths| - 1];
      if p in before then Firsts(before) else Firsts(before) + [p]
  }

  /** The root, then the links of each of these files in turn, with repeats. */
  function Met(w: World, root: string, order: seq<string>): seq<string> {
    if order == [] then [root] else Met(w, root, order[..|order| - 1]) + Targets(w, order[|order| - 1])
  }

  function PathsOf(queue: seq<TranslationUnit>): seq<string> {
    seq(|queue|, k requires 0 <= k < |queue| => queue[k].file.absPath)
  }

  /** The files taken off the queue and those on it are the paths met so far, each where it was met first. */
  ghost predicate BreadthFirst(taken: seq<string>, queue: seq<TranslationUnit>, met: seq<string>, found: set<string>) {
    taken + PathsOf(queue) == Firsts(met) && forall p :: p in found <==> p in met
  }

  lemma {:induction false} MetAgain(taken: seq<string>, queue: seq<TranslationUnit>, met: seq<string>, found: set<string>,
                                    p: string)
    requires BreadthFirst(taken, queue, met, found) && p in found
    ensures BreadthFirst(taken, queue, met + [p], found)
  {
    assert (met + [p])[..|met|] == met;
  }

  lemma {:induction false} MetFirst(taken: seq<string>, queue: seq<TranslationUnit>, met: seq<string>, found: set<string>,
                                    u: TranslationUnit)
    requires BreadthFirst(taken, queue, met, found) && u.file.absPath !in found
    ensures BreadthFirst(taken, queue + [u], met + [u.file.absPath], found + {u.file.absPath})
  {
    var p := u.file.absPath;
    assert (met + [p])[..|met|] == met;
    assert PathsOf(queue + [u]) == PathsOf(queue) + [p];
    assert taken + (PathsOf(queue) + [p]) == taken + PathsOf(queue) + [p];
  }

  lemma {:induction false} HeadTaken(taken: seq<string>, u: TranslationUnit, queue: seq<TranslationUnit>, met: seq<string>,
                                     found: set<string>)
    requires BreadthFirst(taken, [u] + queue, met, found)
    ensures BreadthFirst(taken + [u.file.absPath], queue, met, found)
  {
    assert PathsOf([u] + queue) == [u.file.absPath] + PathsOf(queue);
    assert taken + ([u.file.absPath] + PathsOf(queue)) == taken + [u.file.absPath] + PathsOf(queue);
  }

  lemma {:induction false} OnlyRootMet(w: World, u: TranslationUnit)
    ensures BreadthFirst([], [u], Met(w, u.file.absPath, []), {u.file.absPath})
  {
    assert PathsOf([u]) == [u.file.absPath] && [u.file.absPath][..0] == [];
    assert Firsts([u.file.absPath]) == [] + [u.file.absPath];
  }

  lemma {:induction false} MetMore(w: World, root: string, order: seq<string>, p: string)
    ensures Met(w, root, order + [p]) == Met(w, root, order) + Targets(w, p)
  {
    assert (order + [p])[..|order|] == order;
  }

  lemma {:induction false} NoneQueued(order: seq<string>, met: seq<string>, found: set<string>)
    requires BreadthFirst(order, [], met, found)
    ensures order == Firsts(met)
  {
    assert PathsOf([]) == [] && order + [] == order;
  }

  // One more unit, freshly created.

  lemma {:induction false} SameKeys(units: map<string, TranslationUnit>, files: map<string, SourceFile>, w: World)
    requires Agree(units, files, w)
    ensures forall p :: p in units <==> p in files
  {
  }

  lemma {:induction false} OneMoreUnit(units: map<string, TranslationUnit>, files: map<string, SourceFile>, w: World,
                                       root: string,
                                       path: string, u: TranslationUnit)
    requires Agree(units, files, w) && Found(w, root, units.Keys) && path !in units
    requires u.file.absPath == path && w.open(path) == Some(u.file.imports) && Reachable(w, root, path)
    ensures Agree(units[path := u], files[path := u.file], w) && Found(w, root, units[path := u].Keys)
  {
    hide Reachable;
  }

  lemma {:induction false} OneMoreLinked(units: map<string, TranslationUnit>, w: World, done: set<string>,
                                         current: string,
                                         links: seq<string>, path: string, u: TranslationUnit)
    requires Linked(w, units, done) && path !in units && current in units && LinksTo(units[current], links, units)
    ensures Linked(w, units[path := u], done) && LinksTo(units[current], links, units[path := u])
  {
    hide Targets;
  }

  lemma {:induction false} OneMoreQueued(units: map<string, TranslationUnit>, queue: seq<TranslationUnit>,
                                         done: set<string>,
                                         path: string, u: TranslationUnit)
    requires Queued(queue, units, done) && Untouched(units, done) && path !in units && path !in done
             && u.file.absPath == path
    requires u.programAST == None && u.importedFiles == []
    ensures Queued(queue + [u], units[path := u], done) && Untouched(units[path := u], done)
  {
  }

  /** Taking the head off the queue leaves the others, each once. */
  lemma {:induction false} TakenOff(u: TranslationUnit, queue: seq<TranslationUnit>, units: map<string, TranslationUnit>,
                                    done: set<string>)
    requires Queued([u] + queue, units, done) && forall p :: p in units ==> units[p].file.absPath == p
    ensures u.file.absPath in units && units[u.file.absPath] == u && u.file.absPath !in done
    ensures Queued(queue, units, done + {u.file.absPath})
  {
    assert u in [u] + queue && forall v :: v in queue ==> v in [u] + queue;
    assert forall i, j :: 0 <= i < j < |queue| ==> queue[i] == ([u] + queue)[i + 1] && queue[j] == ([u] + queue)[j + 1];
    forall i | 0 <= i < |queue|
      ensures queue[i] != u
    {
      assert ([u] + queue)[0] == u && ([u] + queue)[i + 1] == queue[i];
    }
  }

  class TranslationUnitContext {
    const sm: SourceManager
    var openFiles: map<string, TranslationUnit>

    constructor (sm: SourceManager)
      ensures this.sm == sm && openFiles == map[]
    {
      this.sm, openFiles := sm, map[];
    }

    method SetRootFile(file: SourceFile) returns (root: TranslationUnit)
      requires openFiles == map[]
      modifies this
      ensures fresh(root) && root.file == file && root.programAST == None && root.importedFiles == []
      ensures openFiles == map[file.absPath := root]
    {
      root := new TranslationUnit(file);
      openFiles := openFiles[file.absPath := root];
    }

    /** Between two imports of `path`: the files in `done` are finished, and `links` are linked so far. */
    ghost predicate Importing(w: World, root: string, done: set<string>, path: string,
                              links: seq<string>,
                              queue: seq<TranslationUnit>)
      reads this, sm, openFiles.Values
    {
      && Agree(openFiles, sm.openFiles, w) && Found(w, root, openFiles.Keys)
      && path in openFiles && path !in done && openFiles[path].programAST.Some?
      && LinksTo(openFiles[path], links, openFiles)
      && Linked(w, openFiles, done) && Untouched(openFiles, done + {path}) && Queued(queue, openFiles, done + {path})
    }

    /** A path met for the first time. */
    method OpenNew(absFilePath: string, queue: seq<TranslationUnit>, w: World, ghost root: string,
                   ghost done: set<string>, ghost path: string, ghost links: seq<string>)
      returns (unit: TranslationUnit?)
      requires Importing(w, root, done, path, links, queue) && absFilePath !in openFiles
      requires w.open(absFilePath).Some? ==> Reachable(w, root, absFilePath)
      requires absFilePath !in done
      modifies this`openFiles, sm
      ensures unit == null <==> w.open(absFilePath).None?
      ensures unit == null ==> openFiles == old(openFiles) && Importing(w, root, done, path, links, queue)
      ensures unit != null ==> fresh(unit) && openFiles == old(openFiles)[absFilePath := unit]
                               && unit.file.absPath == absFilePath
                               && Importing(w, root, done, path, links, queue + [unit])
    {
      hide Reachable, Targets, Agree, Found, Linked, Untouched, Queued, LinksTo;
      ghost var units, files := openFiles, sm.openFiles;
      SameKeys(units, files, w);
      var result := sm.OpenFile(w, absFilePath);
      if result.None? {
        return null;
      }
      unit := new TranslationUnit(result.value);
      openFiles := openFiles[absFilePath := unit];
      OneMoreUnit(units, files, w, root, absFilePath, unit);
      OneMoreLinked(units, w, done, path, links, absFilePath, unit);
      OneMoreQueued(units, queue, done + {path}, absFilePath, unit);
    }

    method Link(u: TranslationUnit, target: string, ghost queue: seq<TranslationUnit>, ghost w: World,
                ghost root: string,
                ghost done: set<string>, ghost links: seq<string>)
      requires Importing(w, root, done, u.file.absPath, links, queue) && openFiles[u.file.absPath] == u
               && target in openFiles
      modifies u`importedFiles
      ensures Importing(w, root, done, u.file.absPath, links + [target], queue)
    {
      hide Reachable, Targets;
      u.AddImportedFiles(openFiles[target]);
      assert forall p :: p in openFiles && p != u.file.absPath ==> openFiles[p] != u;
    }

    /** One import of the file being processed. */
    method ImportOne(u: TranslationUnit, i: ImportDecl, queue: seq<TranslationUnit>, w: World, dc: DiagnosticConsumer,
                     ghost root: string, ghost done: set<string>, ghost links: seq<string>,
                     ghost taken: seq<string>, ghost met: seq<string>)
      returns (queue': seq<TranslationUnit>)
      requires BreadthFirst(taken, queue, met, openFiles.Keys)
      requires Importing(w, root, done, u.file.absPath, links, queue) && openFiles[u.file.absPath] == u
      requires i.isFile && w.open(w.Resolve(u.file.absPath, i.path)).Some? ==>
                 w.Resolve(u.file.absPath, i.path) in Targets(w, u.file.absPath)
      modifies this`openFiles, sm, u`importedFiles, dc
      ensures var target := w.Resolve(u.file.absPath, i.path);
              var opens := i.isFile && w.open(target).Some?;
              && Importing(w, root, done, u.file.absPath, links + (if opens then [target] else []), queue')
              && BreadthFirst(taken, queue', met + (if opens then [target] else []), openFiles.Keys)
              && dc.emitted == old(dc.emitted) + if i.isFile && !opens then [FailedImport(target)] else []
      ensures forall p :: p in old(openFiles) ==> p in openFiles && openFiles[p] == old(openFiles)[p]
      ensures forall p :: p in openFiles ==> p in old(openFiles) || fresh(openFiles[p])
    {
      hide Importing, Reachable, Targets, BreadthFirst;
      queue' := queue;
      assert links + [] == links && met + [] == met;
      if !i.isFile {
        return;
      }
      var absFilePath := w.Resolve(u.file.absPath, i.path);
      InBound(w, root, done, u.file.absPath, links, queue, absFilePath);
      if absFilePath !in openFiles {
        var unit := OpenNew(absFilePath, queue, w, root, done, u.file.absPath, links);
        if unit == null {
          dc.Emit(FailedImport(absFilePath));
          return;
        }
        queue' := queue + [unit];
        MetFirst(taken, queue, met, old(openFiles).Keys, unit);
        assert openFiles.Keys == old(openFiles).Keys + {absFilePath};
      } else {
        MetAgain(taken, queue, met, openFiles.Keys, absFilePath);
      }
      Link(u, absFilePath, queue', w, root, done, links);
    }

    lemma {:induction false} InBound(w: World, root: string, done: set<string>, path: string,
                                     links: seq<string>,
                                     queue: seq<TranslationUnit>, target: string)
      requires Importing(w, root, done, path, links, queue)
      ensures target in Targets(w, path) ==> Reachable(w, root, target)
      ensures target in openFiles ==> w.open(target).Some?
      ensures path in openFiles && (target !in openFiles ==> target !in done)
    {
      hide Untouched, Queued, LinksTo;
      if target in Targets(w, path) {
        TargetIsReachable(w, root, path, target);
      }
    }

    /** Between two files: those in `done` are finished, the others wait in the queue. */
    ghost predicate Waiting(w: World, root: string, done: set<string>, queue: seq<TranslationUnit>)
      reads this, sm, openFiles.Values
    {
      && Agree(openFiles, sm.openFiles, w) && Found(w, root, openFiles.Keys)
      && Linked(w, openFiles, done) && Untouched(openFiles, done) && Queued(queue, openFiles, done)
    }

    /** The file at the head of the queue is parsed and taken off. */
    method Begin(u: TranslationUnit, ghost queue: seq<TranslationUnit>, ghost w: World, ghost root: string,
                 ghost done: set<string>)
      requires Waiting(w, root, done, [u] + queue)
      modifies u`programAST
      ensures Importing(w, root, done, u.file.absPath, [], queue)
      ensures u.file.absPath in openFiles && openFiles[u.file.absPath] == u
      ensures u.programAST.Some? && w.open(u.file.absPath) == u.programAST
    {
      hide Reachable, Targets;
      TakenOff(u, queue, openFiles, done);
      u.Parse();
    }

    lemma {:induction false} Finished(w: World, root: string, done: set<string>, path: string,
                                      queue: seq<TranslationUnit>)
      requires Importing(w, root, done, path, Targets(w, path), queue)
      ensures Waiting(w, root, done + {path}, queue)
    {
      hide Targets, Reachable, LinksTo;
    }

    /** One file: its imports in order. */
    method Process(u: TranslationUnit, queue: seq<TranslationUnit>, w: World, dc: DiagnosticConsumer,
                   ghost root: string, ghost done: set<string>, ghost taken: seq<string>, ghost met: seq<string>)
      returns (queue': seq<TranslationUnit>)
      requires Waiting(w, root, done, [u] + queue) && BreadthFirst(taken, queue, met, openFiles.Keys)
      modifies this`openFiles, sm, u, dc
      ensures Waiting(w, root, done + {u.file.absPath}, queue')
      ensures BreadthFirst(taken, queue', met + Targets(w, u.file.absPath), openFiles.Keys)
      ensures w.open(u.file.absPath).Some?
      ensures dc.emitted == old(dc.emitted) + FailuresOf(w, u.file.absPath, w.open(u.file.absPath).value)
      ensures old(openFiles).Keys <= openFiles.Keys
      ensures forall p :: p in openFiles ==> (p in old(openFiles) && openFiles[p] == old(openFiles)[p]) || fresh(openFiles[p])
    {
      hide Importing, Waiting, Targets, BreadthFirst;
      ghost var path := u.file.absPath;
      Begin(u, queue, w, root, done);
      var imports := u.programAST.value;
      queue' := queue;
      NoImports(w, path, imports);
      assert met + [] == met;
      for k := 0 to |imports|
        invariant Importing(w, root, done, path, TargetsOf(w, path, imports[..k]), queue')
        invariant BreadthFirst(taken, queue', met + TargetsOf(w, path, imports[..k]), openFiles.Keys)
        invariant path in openFiles && openFiles[path] == u && old(openFiles).Keys <= openFiles.Keys
        invariant dc.emitted == old(dc.emitted) + FailuresOf(w, path, imports[..k])
        invariant forall p :: p in openFiles ==> (p in old(openFiles) && openFiles[p] == old(openFiles)[p]) || fresh(openFiles[p])
      {
        OneMoreImport(w, path, imports, k);
        ghost var links := TargetsOf(w, path, imports[..k]);
        ghost var more := TargetsOf(w, path, imports[..k + 1])[|links|..];
        assert met + (links + more) == met + links + more;
        queue' := ImportOne(u, imports[k], queue', w, dc, root, done, links, taken, met + links);
      }
      AllImports(w, path, imports);
      Finished(w, root, done, path, queue');
    }

    lemma {:induction false} NoImports(w: World, path: string, imports: seq<ImportDecl>)
      ensures TargetsOf(w, path, imports[..0]) == [] && FailuresOf(w, path, imports[..0]) == []
    {
    }

    lemma {:induction false} AllImports(w: World, path: string, imports: seq<ImportDecl>)
      ensures imports[..|imports|] == imports
      ensures w.open(path) == Some(imports) ==> TargetsOf(w, path, imports) == Targets(w, path)
    {
    }

    lemma {:induction false} OneMoreImport(w: World, path: string, imports: seq<ImportDecl>, k: nat)
      requires k < |imports| && w.open(path) == Some(imports)
      ensures var target := w.Resolve(path, imports[k].path);
              var opens := imports[k].isFile && w.open(target).Some?;
              && TargetsOf(w, path, imports[..k + 1]) == TargetsOf(w, path, imports[..k]) + (if opens then [target] else [])
              && FailuresOf(w, path, imports[..k + 1]) ==
                 FailuresOf(w, path, imports[..k]) + (if imports[k].isFile && !opens then [FailedImport(target)] else [])
              && (opens ==> target in Targets(w, path))
    {
      assert imports[..k + 1][..k] == imports[..k];
      if imports[k].isFile && w.open(w.Resolve(path, imports[k].path)).Some? {
        TargetIsListed(w, path, imports, k);
      }
    }

    lemma {:induction false} TargetIsListed(w: World, path: string, imports: seq<ImportDecl>, k: nat)
      requires k < |imports| && imports[k].isFile && w.open(w.Resolve(path, imports[k].path)).Some?
      ensures w.Resolve(path, imports[k].path) in TargetsOf(w, path, imports)
    {
      if k < |imports| - 1 {
        TargetIsListed(w, path, imports[..|imports| - 1], k);
      }
    }

    /** Between two files: `order` lists those that are finished. */
    ghost predicate Between(w: World, root: string, done: set<string>, queue: seq<TranslationUnit>, order: seq<string>)
      reads this, sm, openFiles.Values
    {
      && Waiting(w, root, done, queue) && EachOnce(order, done)
      && BreadthFirst(order, queue, Met(w, root, order), openFiles.Keys)
    }

    /** The file at the head of the queue, from being taken off to its last import. */
    method TakeNext(queue: seq<TranslationUnit>, w: World, dc: DiagnosticConsumer, ghost root: string,
                    ghost done: set<string>, ghost order: seq<string>) returns (queue': seq<TranslationUnit>)
      requires queue != [] && Between(w, root, done, queue, order)
      modifies this`openFiles, sm, queue[0], dc
      ensures var path := queue[0].file.absPath;
              && Between(w, root, done + {path}, queue', order + [path])
              && |done + {path}| == |done| + 1
              && w.open(path).Some? && dc.emitted == old(dc.emitted) + FailuresOf(w, path, w.open(path).value)
              && Failures(w, order + [path]) == Failures(w, order) + FailuresOf(w, path, w.open(path).value)
              && path !in done && Reachable(w, root, path)
      ensures old(openFiles).Keys <= openFiles.Keys
      ensures forall p :: p in openFiles ==> (p in old(openFiles) && openFiles[p] == old(openFiles)[p]) || fresh(openFiles[p])
    {
      hide Waiting, EachOnce, BreadthFirst, Met, Failures, FailuresOf, Reachable, Targets;
      var file := queue[0];
      assert [file] + queue[1..] == queue;
      queue' := queue[1..];
      HeadWaits(w, root, done, file, queue');
      OneMoreFailures(w, order, file.file.absPath);
      OnceMore(order, done, file.file.absPath);
      HeadTaken(order, file, queue', Met(w, root, order), openFiles.Keys);
      MetMore(w, root, order, file.file.absPath);
      queue' := Process(file, queue', w, dc, root, done, order + [file.file.absPath], Met(w, root, order));
    }

    lemma {:induction false} QueuedIsFound(w: World, root: string, done: set<string>, queue: seq<TranslationUnit>,
                                           order: seq<string>)
      requires queue != [] && Between(w, root, done, queue, order)
      ensures Reachable(w, root, queue[0].file.absPath) && queue[0].file.absPath !in done
      ensures queue[0].file.absPath in openFiles && openFiles[queue[0].file.absPath] == queue[0]
    {
      hide Waiting, EachOnce, BreadthFirst, Met, Failures, FailuresOf, Reachable, Targets;
      assert [queue[0]] + queue[1..] == queue;
      HeadWaits(w, root, done, queue[0], queue[1..]);
    }

    /** From a root that alone is open, the traversal opens and links exactly what can be reached, each file once, provided
        that finitely many paths can be reached. `order` is the order in which files are processed: that
        in which they are first met, breadth first. */
    method TraverseFileImports(start: TranslationUnit, w: World, dc: DiagnosticConsumer, ghost paths: set<string>)
      returns (ghost order: seq<string>)
      requires openFiles == map[start.file.absPath := start] && sm.openFiles == map[start.file.absPath := start.file]
      requires start.programAST == None && start.importedFiles == []
               && w.open(start.file.absPath) == Some(start.file.imports)
      requires HoldsReachable(w, start.file.absPath, paths)
      modifies this`openFiles, sm, start, dc
      ensures forall p :: p in openFiles <==> Reachable(w, start.file.absPath, p)
      ensures Agree(openFiles, sm.openFiles, w) && Linked(w, openFiles, openFiles.Keys)
      ensures EachOnce(order, openFiles.Keys) && order == Firsts(Met(w, start.file.absPath, order))
      ensures dc.emitted == old(dc.emitted) + Failures(w, order)
    {
      hide Waiting, Reachable, Targets, Linked, Untouched, Queued, Found;
      hide EachOnce, Agree, Failures, FailuresOf, BreadthFirst, Met;
      ghost var root := start.file.absPath;
      ghost var done: set<string> := {};
      RootAlone(start, w);
      order := [];
      var queue := [start];
      while queue != []
        invariant Between(w, root, done, queue, order)
        invariant root in openFiles && forall p :: p in openFiles ==> openFiles[p] == start || fresh(openFiles[p])
        invariant dc.emitted == old(dc.emitted) + Failures(w, order)
        decreases paths - done
      {
        ghost var path := queue[0].file.absPath;
        QueuedIsFound(w, root, done, queue, order);
        queue := TakeNext(queue, w, dc, root, done, order);
        done, order := done + {path}, order + [path];
      }
      AllDone(w, root, done);
      NoneQueued(order, Met(w, root, order), openFiles.Keys);
    }

    /** The same loop, stopped after `n` files. It has ended by itself exactly if at most `n` paths can be reached; so the
        loop without a stop ends exactly if finitely many can. */
    method TraverseAtMost(n: nat, start: TranslationUnit, w: World, dc: DiagnosticConsumer)
      returns (ended: bool, ghost order: seq<string>)
      requires openFiles == map[start.file.absPath := start] && sm.openFiles == map[start.file.absPath := start.file]
      requires start.programAST == None && start.importedFiles == []
               && w.open(start.file.absPath) == Some(start.file.imports)
      modifies this`openFiles, sm, start, dc
      ensures ended <==> exists paths :: HoldsReachable(w, start.file.absPath, paths) && |paths| <= n
      ensures forall p :: p in openFiles ==> Reachable(w, start.file.absPath, p)
      ensures ended ==> HoldsReachable(w, start.file.absPath, openFiles.Keys)
      ensures ended ==> Agree(openFiles, sm.openFiles, w) && Linked(w, openFiles, openFiles.Keys)
      ensures ended ==> EachOnce(order, openFiles.Keys) && order == Firsts(Met(w, start.file.absPath, order))
      ensures dc.emitted == old(dc.emitted) + Failures(w, order)
    {
      hide *;
      ghost var root := start.file.absPath;
      ghost var done: set<string> := {};
      RootAlone(start, w);
      order := [];
      var queue, left := [start], n;
      while queue != [] && left > 0
        invariant Between(w, root, done, queue, order) && |done| + left == n
        invariant root in openFiles && forall p :: p in openFiles ==> openFiles[p] == start || fresh(openFiles[p])
        invariant dc.emitted == old(dc.emitted) + Failures(w, order)
        decreases left
      {
        ghost var path := queue[0].file.absPath;
        QueuedIsFound(w, root, done, queue, order);
        queue := TakeNext(queue, w, dc, root, done, order);
        done, order := done + {path}, order + [path];
        left := left - 1;
      }
      ended := queue == [];
      Outcome(w, root, done, queue, order, n);
    }

    lemma {:induction false} Outcome(w: World, root: string, done: set<string>, queue: seq<TranslationUnit>,
                                     order: seq<string>, n: nat)
      requires Between(w, root, done, queue, order) && root in openFiles
      requires |done| <= n && (queue != [] ==> |done| == n)
      ensures queue == [] <==> exists paths :: HoldsReachable(w, root, paths) && |paths| <= n
      ensures forall p :: p in openFiles ==> Reachable(w, root, p)
      ensures queue == [] ==> HoldsReachable(w, root, openFiles.Keys) && Agree(openFiles, sm.openFiles, w)
                              && Linked(w, openFiles, openFiles.Keys) && EachOnce(order, openFiles.Keys)
                              && order == Firsts(Met(w, root, order))
    {
      hide HoldsReachable, Agree, Linked, Waiting, EachOnce, BreadthFirst, Met, Failures, FailuresOf, Reachable, Targets;
      AllFound(w, root, done, queue);
      if queue == [] {
        AllDone(w, root, done);
        NoneQueued(order, Met(w, root, order), openFiles.Keys);
        assert HoldsReachable(w, root, openFiles.Keys) && |openFiles.Keys| <= n;
      } else {
        QueuedIsFound(w, root, done, queue, order);
        TooFew(w, root, done, queue[0].file.absPath);
      }
    }

    lemma {:induction false} AllFound(w: World, root: string, done: set<string>, queue: seq<TranslationUnit>)
      requires Waiting(w, root, done, queue)
      ensures done <= openFiles.Keys && forall p :: p in openFiles ==> Reachable(w, root, p)
    {
      hide Targets, Reachable, Untouched, Queued, LinksTo;
    }

    /** A path beyond those that are finished makes one more. */
    lemma {:induction false} TooFew(w: World, root: string, done: set<string>, path: string)
      requires path !in done && Reachable(w, root, path) && forall p :: p in done ==> Reachable(w, root, p)
      ensures forall paths :: HoldsReachable(w, root, paths) ==> |paths| > |done|
    {
      hide Reachable;
      forall paths | HoldsReachable(w, root, paths)
        ensures |paths| > |done|
      {
        assert paths == done + {path} + (paths - done - {path});
      }
    }

    lemma {:induction false} RootAlone(start: TranslationUnit, w: World)
      requires openFiles == map[start.file.absPath := start] && sm.openFiles == map[start.file.absPath := start.file]
      requires start.programAST == None && start.importedFiles == []
               && w.open(start.file.absPath) == Some(start.file.imports)
      ensures Between(w, start.file.absPath, {}, [start], []) && Failures(w, []) == []
    {
      hide Targets, BreadthFirst, Met;
      RootIsReachable(w, start.file.absPath);
      OnceNone(w);
      OnlyRootMet(w, start);
      assert openFiles.Keys == {start.file.absPath};
    }

    lemma {:induction false} HeadWaits(w: World, root: string, done: set<string>,
                                       file: TranslationUnit,
                                       queue: seq<TranslationUnit>)
      requires Waiting(w, root, done, [file] + queue)
      ensures Reachable(w, root, file.file.absPath) && file.file.absPath !in done && file.file.absPath in openFiles
      ensures openFiles[file.file.absPath] == file
    {
      hide Targets, Reachable, Linked, Untouched;
      assert file in [file] + queue;
    }

    lemma {:induction false} OneMoreFailures(w: World, order: seq<string>, p: string)
      ensures Failures(w, order + [p]) ==
              Failures(w, order) + if w.open(p).None? then [] else FailuresOf(w, p, w.open(p).value)
    {
      assert (order + [p])[..|order|] == order;
    }

    lemma {:induction false} AllDone(w: World, root: string, done: set<string>)
      requires Waiting(w, root, done, []) && root in openFiles
      ensures openFiles.Keys == done && Linked(w, openFiles, openFiles.Keys) && Agree(openFiles, sm.openFiles, w)
      ensures (forall p :: p in openFiles <==> Reachable(w, root, p)) && HoldsReachable(w, root, openFiles.Keys)
    {
      hide Targets;
      forall p | Reachable(w, root, p)
        ensures p in openFiles
      {
        var walk :| IsWalk(w, root, walk) && walk[|walk| - 1] == p;
        forall q, t | q in openFiles.Keys && t in Targets(w, q)
          ensures t in openFiles.Keys
        {
          assert LinksTo(openFiles[q], Targets(w, q), openFiles);
        }
        ClosedHoldsReachable(w, root, openFiles.Keys, walk);
      }
    }
  }

  /** However long it goes on, the traversal of the file that imports itself has not ended. */
  method SelfImportNeverEnds(context: TranslationUnitContext, start: TranslationUnit, dc: DiagnosticConsumer, n: nat)
    returns (ended: bool)
    requires start.file == SourceFile("d/a", [ImportDecl(true, "./a")])
             && start.programAST == None && start.importedFiles == []
    requires context.openFiles == map["d/a" := start] && context.sm.openFiles == map["d/a" := start.file]
    modifies context`openFiles, context.sm, start, dc
    ensures !ended
  {
    hide HoldsReachable, NamesFile;
    RootNamesFile();
    ghost var order;
    ended, order := context.TraverseAtMost(n, start, SelfImport(), dc);
    if ended {
      ghost var paths :| HoldsReachable(SelfImport(), "d/a", paths) && |paths| <= n;
      SelfImportNeverCloses(paths);
    }
  }
}
