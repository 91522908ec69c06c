/** Multi-file loading (`modules.rs`): a depth-first traversal of the import graph that merges the
    native items of every reached file.  The file system with its parser, and the resolution of an
    import's `from` text, are given as finite maps; a file absent from the map fails to load. */
module ModuleLoader {
  import opened Wrappers

  type Path = string

  datatype Item =
    | Import(from: string, names: seq<string>)
    | Named(name: string)   // type, enum, fn or const: what an import can name
    | Unnamed(text: string) // service, db, test: merged, never imported by name

  datatype Project = Project(files: map<Path, seq<Item>>, targets: map<(Path, string), Path>)

  datatype Error = Cycle(at: Path) | Unreadable(file: Path) | Unresolved(file: Path, from: string) | Missing(file: Path, name: string)

  predicate Exports(items: seq<Item>, name: string) { Named(name) in items }

  function Native(items: seq<Item>): seq<Item> {
    if items == [] then []
    else if items[0].Import? then Native(items[1..]) else [items[0]] + Native(items[1..])
  }

  // ----- the import graph -----

  /** This import of file `p` resolves to a readable file that declares every imported name itself. */
  predicate ImportOk(project: Project, p: Path, imp: Item)
    requires imp.Import?
  {
    && (p, imp.from) in project.targets
    && project.targets[(p, imp.from)] in project.files
    && forall n | n in imp.names :: Exports(project.files[project.targets[(p, imp.from)]], n)
  }

  predicate FileOk(project: Project, p: Path) {
    p in project.files && forall i | i in project.files[p] && i.Import? :: ImportOk(project, p, i)
  }

  ghost predicate Edge(project: Project, p: Path, q: Path) {
    && p in project.files
    && exists i :: i in project.files[p] && i.Import? && (p, i.from) in project.targets && project.targets[(p, i.from)] == q
  }

  /** A walk along import edges; a single file is a walk of no edges. */
  ghost predicate Walk(project: Project, w: seq<Path>) {
    |w| > 0 && forall i | 0 <= i < |w| - 1 :: Edge(project, w[i], w[i + 1])
  }

  ghost predicate WalkFrom(project: Project, w: seq<Path>, p: Path, q: Path) {
    Walk(project, w) && w[0] == p && w[|w| - 1] == q
  }

  ghost predicate Reaches(project: Project, p: Path, q: Path) { exists w :: WalkFrom(project, w, p, q) }

  ghost predicate OnCycle(project: Project, p: Path) { exists w :: |w| > 1 && WalkFrom(project, w, p, p) }

  /** Every reachable file is sound and none lies on a cycle. */
  ghost predicate Loadable(project: Project, entry: Path) {
    forall p | Reaches(project, entry, p) :: FileOk(project, p) && !OnCycle(project, p)
  }

  lemma ReachesItself(project: Project, p: Path)
    ensures Reaches(project, p, p)
  {
    assert WalkFrom(project, [p], p, p);
  }

  lemma ReachesThrough(project: Project, p: Path, q: Path, r: Path)
    requires Reaches(project, p, q) && Edge(project, q, r)
    ensures Reaches(project, p, r)
  {
    var w :| WalkFrom(project, w, p, q);
    assert WalkFrom(project, w + [r], p, r);
  }

  /** `order` lists files so that each one is sound and imports only files listed before it. */
  ghost predicate Topological(project: Project, order: seq<Path>) {
    && (forall i, j | 0 <= i < j < |order| :: order[i] != order[j])
    && forall i | 0 <= i < |order| :: FileOk(project, order[i]) && forall q | Edge(project, order[i], q) :: q in order[..i]
  }

  /** A walk that starts inside a topological order goes strictly down in it. */
  lemma {:induction false} WalkDescends(project: Project, order: seq<Path>, w: seq<Path>, i: nat) returns (j: nat)
    requires Topological(project, order) && Walk(project, w) && i < |order| && w[0] == order[i]
    ensures j <= i && order[j] == w[|w| - 1] && (|w| > 1 ==> j < i)
    decreases |w|
  {
    if |w| == 1 {
      j := i;
    } else {
      assert Edge(project, w[0], w[1]);
      var k :| 0 <= k < i && order[k] == w[1];
      assert Walk(project, w[1..]) by {
        forall n | 0 <= n < |w[1..]| - 1 ensures Edge(project, w[1..][n], w[1..][n + 1]) {
          assert Edge(project, w[n + 1], w[n + 2]);
        }
      }
      j := WalkDescends(project, order, w[1..], k);
    }
  }

  /** Hence a topological order is closed under reachability and free of cycles. */
  lemma OrderedIsLoadable(project: Project, order: seq<Path>, p: Path)
    requires Topological(project, order) && p in order
    ensures Loadable(project, p) && forall q | Reaches(project, p, q) :: q in order
  {
    var i :| 0 <= i < |order| && order[i] == p;
    forall q | Reaches(project, p, q)
      ensures q in order && FileOk(project, q) && !OnCycle(project, q)
    {
      var w :| WalkFrom(project, w, p, q);
      var j := WalkDescends(project, order, w, i);
      if OnCycle(project, q) {
        var c :| |c| > 1 && WalkFrom(project, c, q, q);
        var k := WalkDescends(project, order, c, j);
        assert false;
      }
    }
  }

  function Merged(project: Project, order: seq<Path>): seq<Item> {
    if order == [] then []
    else
      var last := order[|order| - 1];
      Merged(project, order[..|order| - 1]) + if last in project.files then Native(project.files[last]) else []
  }

  function MergedFiles(project: Project, order: seq<Path>): seq<Path> {
    if order == [] then []
    else
      var last := order[|order| - 1];
      MergedFiles(project, order[..|order| - 1]) +
      if last in project.files then seq(|Native(project.files[last])|, _ => last) else []
  }

  /** The file list is aligned with the items: each item is a native item of the file at its index. */
  lemma {:induction false} MergedAligned(project: Project, order: seq<Path>)
    ensures |Merged(project, order)| == |MergedFiles(project, order)|
    ensures forall i | 0 <= i < |Merged(project, order)| ::
      var file := MergedFiles(project, order)[i];
      file in order && file in project.files && Merged(project, order)[i] in project.files[file] && !Merged(project, order)[i].Import?
  {
    if order != [] {
      MergedAligned(project, order[..|order| - 1]);
      var last := order[|order| - 1];
      if last in project.files { NativeItems(project.files[last]); }
    }
  }

  lemma {:induction false} NativeItems(items: seq<Item>)
    ensures forall i | 0 <= i < |Native(items)| :: Native(items)[i] in items && !Native(items)[i].Import?
    ensures forall i | i in items && !i.Import? :: i in Native(items)
  {
    if items != [] { NativeItems(items[1..]); }
  }

  // ----- where the items of a file are found in the merged list -----

  /** `at` lists exactly the given indices, in increasing order. */
  ghost predicate Lists(at: seq<int>, indices: set<int>) {
    && (forall i, j | 0 <= i < j < |at| :: at[i] < at[j])
    && (forall i | 0 <= i < |at| :: at[i] in indices)
    && forall k | k in indices :: k in at
  }

  function NonImports(items: seq<Item>): set<int> { set k | 0 <= k < |items| && !items[k].Import? }

  function PlacesOf(files: seq<Path>, file: Path): set<int> { set k | 0 <= k < |files| && files[k] == file }

  /** The `k`-th place of the file holds the `k`-th of its items that is no import, and there are as many. */
  ghost predicate Corresponds(items: seq<Item>, file: Path, merged: seq<Item>, files: seq<Path>, from: seq<int>, to: seq<int>)
    requires |merged| == |files|
  {
    && Lists(from, NonImports(items)) && Lists(to, PlacesOf(files, file)) && |from| == |to|
    && forall k | 0 <= k < |from| :: merged[to[k]] == items[from[k]]
  }

  /** Each item of the file that is no import is merged exactly once, in the order of the file. */
  ghost predicate KeepsItems(items: seq<Item>, file: Path, merged: seq<Item>, files: seq<Path>)
    requires |merged| == |files|
  {
    exists from, to :: Corresponds(items, file, merged, files, from, to)
  }

  /** No item comes before an item of a file that its own file imports. */
  ghost predicate ImportsFirst(project: Project, files: seq<Path>) {
    forall i, j | 0 <= i < |files| && 0 <= j < |files| && Edge(project, files[i], files[j]) :: j < i
  }

  function Later(rest: seq<int>): (later: seq<int>)
    ensures |later| == |rest| && forall k | 0 <= k < |rest| :: later[k] == rest[k] + 1
  {
    seq(|rest|, k requires 0 <= k < |rest| => rest[k] + 1)
  }

  lemma LaterLists(items: seq<Item>, rest: seq<int>)
    requires items != [] && Lists(rest, NonImports(items[1..]))
    ensures Lists(Later(rest), NonImports(items) - {0})
  {
    var later := Later(rest);
    hide Later;
    forall k | k in NonImports(items) - {0} ensures k in later {
      assert k - 1 in NonImports(items[1..]);
      var i :| 0 <= i < |rest| && rest[i] == k - 1;
      assert later[i] == k;
    }
  }

  lemma LaterPlaces(items: seq<Item>, rest: seq<int>) returns (from: seq<int>)
    requires items != [] && Lists(rest, NonImports(items[1..]))
    ensures Lists(from, NonImports(items)) && from == if items[0].Import? then Later(rest) else [0] + Later(rest)
  {
    LaterLists(items, rest);
    hide Later;
    from := if items[0].Import? then Later(rest) else [0] + Later(rest);
    assert forall k | k in NonImports(items) - {0} :: k > 0;
    if items[0].Import? { assert NonImports(items) - {0} == NonImports(items); }
  }

  /** The items at these places, in this order. */
  predicate Reads(found: seq<Item>, items: seq<Item>, at: seq<int>) {
    |at| == |found| && forall k | 0 <= k < |at| :: 0 <= at[k] < |items| && found[k] == items[at[k]]
  }

  lemma ReadsLater(found: seq<Item>, items: seq<Item>, rest: seq<int>)
    requires items != [] && Reads(found, items[1..], rest)
    ensures Reads(found, items, Later(rest)) && Reads([items[0]] + found, items, [0] + Later(rest))
  {
    var later := Later(rest);
    forall k | 0 <= k < |rest| ensures 0 <= later[k] < |items| && found[k] == items[later[k]] {
      assert items[1..][rest[k]] == items[rest[k] + 1];
    }
  }

  lemma {:induction false} NativePlaces(items: seq<Item>) returns (from: seq<int>)
    ensures Lists(from, NonImports(items)) && Reads(Native(items), items, from)
  {
    hide Lists, NonImports, Reads, Later;
    if items == [] {
      from := [];
      NoPlaces();
    } else {
      var rest := NativePlaces(items[1..]);
      from := LaterPlaces(items, rest);
      ReadsLater(Native(items[1..]), items, rest);
    }
  }

  lemma NoPlaces()
    ensures Lists([], NonImports([])) && Reads([], [], [])
  {}

  lemma MergedUnfolds(project: Project, order: seq<Path>)
    requires order != [] && order[|order| - 1] in project.files
    ensures var front, last := order[..|order| - 1], order[|order| - 1];
      var items := Native(project.files[last]);
      && Merged(project, order) == Merged(project, front) + items
      && MergedFiles(project, order) == MergedFiles(project, front) + seq(|items|, _ => last)
      && |Merged(project, front)| == |MergedFiles(project, front)|
      && forall i | 0 <= i < |MergedFiles(project, front)| :: MergedFiles(project, front)[i] in front
  {
    MergedAligned(project, order[..|order| - 1]);
    hide Native;
  }

  /** The items of a finished file stand side by side, and no others are its own. */
  lemma {:induction false} MergedPlaces(project: Project, order: seq<Path>, file: Path) returns (start: nat)
    requires file in order && Topological(project, order)
    ensures file in project.files && |Merged(project, order)| == |MergedFiles(project, order)|
    ensures var n := |Native(project.files[file])|;
      && start + n <= |MergedFiles(project, order)|
      && (forall k | 0 <= k < n :: Merged(project, order)[start + k] == Native(project.files[file])[k])
      && forall i | 0 <= i < |MergedFiles(project, order)| :: MergedFiles(project, order)[i] == file <==> start <= i < start + n
  {
    hide Native, ImportOk;
    var front, last := order[..|order| - 1], order[|order| - 1];
    FrontIsTopological(project, order);
    hide Topological;
    MergedUnfolds(project, order);
    hide Merged, MergedFiles;
    if file == last {
      start := |Merged(project, front)|;
    } else {
      start := MergedPlaces(project, front, file);
    }
  }

  lemma SideBySide(files: seq<Path>, file: Path, start: nat, n: nat)
    requires start + n <= |files| && forall i | 0 <= i < |files| :: files[i] == file <==> start <= i < start + n
    ensures Lists(seq(n, k => start + k), PlacesOf(files, file))
  {
    var to := seq(n, k => start + k);
    forall k | k in PlacesOf(files, file) ensures k in to {
      assert to[k - start] == k;
    }
  }

  lemma FrontIsTopological(project: Project, order: seq<Path>)
    requires Topological(project, order) && order != []
    ensures var front, last := order[..|order| - 1], order[|order| - 1];
      && Topological(project, front) && last !in front && last in project.files && order == front + [last]
      && (forall p | p in front :: p in project.files && !Edge(project, p, last))
      && forall q | Edge(project, last, q) :: q in front
  {
    hide ImportOk, Edge;
    var front := order[..|order| - 1];
    forall i, q | 0 <= i < |front| && Edge(project, front[i], q) ensures q in front[..i] {
      assert front[..i] == order[..i] && Edge(project, order[i], q);
    }
    forall p | p in front ensures !Edge(project, p, order[|order| - 1]) {
      var i :| 0 <= i < |front| && front[i] == p;
      assert order[i] == p;
    }
  }

  lemma MergedKeepsItems(project: Project, order: seq<Path>, file: Path)
    requires file in order && Topological(project, order)
    ensures file in project.files && |Merged(project, order)| == |MergedFiles(project, order)|
    ensures KeepsItems(project.files[file], file, Merged(project, order), MergedFiles(project, order))
  {
    var start := MergedPlaces(project, order, file);
    hide Topological, Merged, MergedFiles, Native, Lists, NonImports, PlacesOf;
    var items, merged, files := project.files[file], Merged(project, order), MergedFiles(project, order);
    var from := NativePlaces(items);
    SideBySide(files, file, start, |from|);
    PlacesCorrespond(items, file, merged, files, from, start, Native(items));
  }

  lemma PlacesCorrespond(items: seq<Item>, file: Path, merged: seq<Item>, files: seq<Path>, from: seq<int>, start: nat, native: seq<Item>)
    requires |merged| == |files| && Reads(native, items, from) && start + |from| <= |merged|
    requires Lists(from, NonImports(items)) && Lists(seq(|from|, k => start + k), PlacesOf(files, file))
    requires forall k | 0 <= k < |from| :: merged[start + k] == native[k]
    ensures KeepsItems(items, file, merged, files)
  {
    var to := seq(|from|, k => start + k);
    hide Lists, PlacesOf, NonImports;
    forall k | 0 <= k < |from| ensures 0 <= to[k] < |merged| && merged[to[k]] == items[from[k]] {
      assert merged[start + k] == native[k];
    }
    assert Corresponds(items, file, merged, files, from, to);
  }

  lemma {:induction false} MergedImportsFirst(project: Project, order: seq<Path>)
    requires Topological(project, order)
    ensures ImportsFirst(project, MergedFiles(project, order))
  {
    hide Native, ImportOk, Edge;
    if order != [] {
      var front := order[..|order| - 1];
      FrontIsTopological(project, order);
      hide Topological;
      MergedImportsFirst(project, front);
      MergedUnfolds(project, order);
      hide Merged, MergedFiles;
      var before, files := MergedFiles(project, front), MergedFiles(project, order);
      forall i, j | 0 <= i < |files| && 0 <= j < |files| && Edge(project, files[i], files[j]) ensures j < i {
        assert i < |before| ==> before[i] == files[i] && files[i] in front;
        assert j < |before| ==> before[j] == files[j];
      }
    }
  }

  lemma MergedWell(project: Project, order: seq<Path>)
    requires Topological(project, order)
    ensures var merged, files := Merged(project, order), MergedFiles(project, order);
      && |merged| == |files| && (forall p | p in files :: p in order) && ImportsFirst(project, files)
      && forall p | p in order :: p in project.files && KeepsItems(project.files[p], p, merged, files)
  {
    hide Topological, Merged, MergedFiles, KeepsItems, ImportsFirst;
    MergedAligned(project, order);
    MergedImportsFirst(project, order);
    forall p | p in order ensures p in project.files && KeepsItems(project.files[p], p, Merged(project, order), MergedFiles(project, order)) {
      MergedKeepsItems(project, order, p);
    }
  }

  // ----- the traversal -----

  /** What a failure means, for the file whose loading failed. */
  ghost predicate Explains(project: Project, canon: Path, error: Error) {
    match error
    case Cycle(at) => Reaches(project, canon, at) && OnCycle(project, at)
    case Unreadable(file) => Reaches(project, canon, file) && file !in project.files
    case Unresolved(file, from) =>
      && Reaches(project, canon, file) && file in project.files && (file, from) !in project.targets
      && exists names :: Import(from, names) in project.files[file]
    case Missing(file, name) =>
      && Reaches(project, canon, file) && file in project.files
      && exists imp :: imp in project.files[file] && imp.Import? && name in imp.names && LacksName(project, file, imp.from, name)
  }

  /** `from` leads to a file that can be read and does not declare `name` itself. */
  predicate LacksName(project: Project, file: Path, from: string, name: string) {
    && (file, from) in project.targets && project.targets[(file, from)] in project.files
    && !Exports(project.files[project.targets[(file, from)]], name)
  }

  lemma ExplainedThrough(project: Project, p: Path, q: Path, error: Error)
    requires Edge(project, p, q) && Explains(project, q, error)
    ensures Explains(project, p, error)
  {
    var r := match error { case Cycle(at) => at case Unreadable(f) => f case Unresolved(f, _) => f case Missing(f, _) => f };
    ReachesVia(project, p, q, r);
  }

  lemma ReachesVia(project: Project, p: Path, q: Path, r: Path)
    requires Edge(project, p, q) && Reaches(project, q, r)
    ensures Reaches(project, p, r)
  {
    var w :| WalkFrom(project, w, q, r);
    var v := [p] + w;
    assert forall n | 0 <= n < |w| :: v[n + 1] == w[n];
    assert WalkFrom(project, v, p, r);
  }

  lemma ExplainedIsNotLoadable(project: Project, p: Path, error: Error)
    requires Explains(project, p, error)
    ensures !Loadable(project, p)
  {}

  method NameExists(items: seq<Item>, name: string) returns (found: bool)
    ensures found == Exports(items, name)
  {
    for i := 0 to |items|
      invariant Named(name) !in items[..i]
    {
      if items[i].Named? && items[i].name == name { return true; }
    }
    return false;
  }

  method FirstMissing(items: seq<Item>, names: seq<string>) returns (missing: Option<string>)
    ensures missing.None? ==> forall n | n in names :: Exports(items, n)
    ensures missing.Some? ==> missing.value in names && !Exports(items, missing.value)
  {
    for i := 0 to |names|
      invariant forall k | 0 <= k < i :: Exports(items, names[k])
    {
      var found := NameExists(items, names[i]);
      if !found { return Some(names[i]); }
    }
    return None;
  }

  ghost predicate Merges(project: Project, order: seq<Path>, done: set<Path>, merged: seq<Item>, mergedFiles: seq<Path>) {
    && Topological(project, order) && done == (set p | p in order)
    && merged == Merged(project, order) && mergedFiles == MergedFiles(project, order)
  }

  class Loader {
    const project: Project
    var nativeItems: map<Path, seq<Item>>  // parsed files, cached
    var touched: seq<Path>                 // in the order they were first read
    var onStack: set<Path>
    var done: set<Path>
    var merged: seq<Item>
    var mergedFiles: seq<Path>
    ghost var order: seq<Path>             // files in the order they were finished

    /** The cache holds what the files hold, and lists each file read exactly once. */
    ghost predicate CacheValid()
      reads this
    {
      && (forall p | p in nativeItems :: p in project.files && nativeItems[p] == project.files[p])
      && nativeItems.Keys == (set p | p in touched)
      && forall i, j | 0 <= i < j < |touched| :: touched[i] != touched[j]
    }

    ghost predicate Valid()
      reads this
    {
      CacheValid() && Merges(project, order, done, merged, mergedFiles) && done !! onStack && done <= nativeItems.Keys
    }

    constructor (project: Project)
      ensures Valid() && this.project == project
      ensures done == {} && onStack == {} && order == [] && touched == []
    {
      this.project := project;
      nativeItems, touched, onStack, done, merged, mergedFiles, order := map[], [], {}, {}, [], [], [];
    }

    method LoadNative(canon: Path) returns (r: Result<seq<Item>, Error>)
      requires CacheValid()
      modifies this`nativeItems, this`touched
      ensures CacheValid()
      ensures canon in project.files ==>
        r == Success(project.files[canon]) && nativeItems.Keys == old(nativeItems.Keys) + {canon}
      ensures canon !in project.files ==> r == Failure(Unreadable(canon)) && nativeItems == old(nativeItems)
      ensures touched == old(touched) + (if canon in old(nativeItems) || canon !in project.files then [] else [canon])
    {
      if canon in nativeItems { return Success(nativeItems[canon]); }
      if canon !in project.files { return Failure(Unreadable(canon)); }
      touched := touched + [canon];
      nativeItems := nativeItems[canon := project.files[canon]];
      return Success(project.files[canon]);
    }

    /** One import of `canon`: its target, once every imported name is known to be native to it. */
    method CheckImport(canon: Path, imp: Item) returns (r: Result<Path, Error>)
      requires CacheValid() && canon in project.files && imp in project.files[canon] && imp.Import?
      modifies this`nativeItems, this`touched
      ensures CacheValid()
      ensures r.Success? ==>
        && ImportOk(project, canon, imp) && r.value == project.targets[(canon, imp.from)] && Edge(project, canon, r.value)
        && nativeItems.Keys == old(nativeItems.Keys) + {r.value}
      ensures r.Failure? ==> Explains(project, canon, r.error)
    {
      ReachesItself(project, canon);
      if (canon, imp.from) !in project.targets { return Failure(Unresolved(canon, imp.from)); }
      var target := project.targets[(canon, imp.from)];
      assert Edge(project, canon, target);
      ReachesThrough(project, canon, canon, target);
      var native := LoadNative(target);
      if native.Failure? { return Failure(native.error); }
      var missing := FirstMissing(native.value, imp.names);
      if missing.Some? { return Failure(Missing(canon, missing.value)); }
      return Success(target);
    }

    /** Visits `canon`, reached from the files of `stack`.  A success finishes exactly the files
        reachable from it; a failure names a file that is broken, or one on a cycle. */
    method Visit(canon: Path, ghost stack: seq<Path>) returns (r: Result<(), Error>)
      requires Valid() && onStack == (set p | p in stack)
      requires Walk(project, stack + [canon])
      requires nativeItems.Keys <= done + onStack + {canon}
      modifies this
      ensures CacheValid()
      ensures r.Success? ==>
        && Valid() && onStack == old(onStack) && old(nativeItems.Keys) <= nativeItems.Keys <= done + onStack
        && old(order) <= order && old(done) <= done && canon in done && FinishedBelow(canon, old(done))
      ensures r.Failure? ==> Explains(project, canon, r.error)
      decreases project.files.Keys - onStack, 0
    {
      hide Merges, CacheValid, ImportOk, ImportsDone, Exports, Reaches, Walk;
      ReachesItself(project, canon);
      if canon in done { return Success(()); }
      if canon in onStack {
        StackCycle(project, stack, canon);
        return Failure(Cycle(canon));
      }
      var entered := Enter(canon);
      if entered.Failure? { return Failure(entered.error); }
      var items := entered.value;
      assert (set p | p in stack + [canon]) == onStack;
      r := VisitImports(canon, items, stack);
      if r.Failure? { return; }
      Finish(canon, items);
      return Success(());
    }

    /** Puts `canon` on the stack and loads its own items. */
    method Enter(canon: Path) returns (r: Result<seq<Item>, Error>)
      requires Valid() && canon !in done && canon !in onStack
      requires nativeItems.Keys <= done + onStack + {canon}
      modifies this`onStack, this`nativeItems, this`touched
      ensures Valid() && onStack == old(onStack) + {canon}
      ensures r.Success? ==>
        && canon in project.files && r.value == project.files[canon]
        && nativeItems.Keys == old(nativeItems.Keys) + {canon} && nativeItems.Keys <= done + onStack
      ensures r.Failure? ==> canon !in project.files && r.error == Unreadable(canon)
    {
      hide Merges;
      onStack := onStack + {canon};
      r := LoadNative(canon);
    }

    method VisitImports(canon: Path, items: seq<Item>, ghost stack: seq<Path>) returns (r: Result<(), Error>)
      requires Valid() && onStack == (set p | p in stack + [canon])
      requires Walk(project, stack + [canon])
      requires canon in project.files && items == project.files[canon] && nativeItems.Keys <= done + onStack
      modifies this
      ensures CacheValid()
      ensures r.Success? ==>
        && Valid() && onStack == old(onStack) && old(nativeItems.Keys) <= nativeItems.Keys <= done + onStack
        && old(order) <= order && old(done) <= done && FinishedBelow(canon, old(done)) && ImportsDone(canon, items)
      ensures r.Failure? ==> Explains(project, canon, r.error)
      decreases project.files.Keys - onStack, 2
    {
      hide Walk, ImportOk, Explains, Merges, CacheValid, Reaches, Exports;
      ghost var before := done;
      for i := 0 to |items|
        invariant Valid() && onStack == old(onStack) && old(nativeItems.Keys) <= nativeItems.Keys <= done + onStack
        invariant old(order) <= order && old(done) <= done && FinishedBelow(canon, before)
        invariant ImportsDone(canon, items[..i])
      {
        if items[i].Import? {
          r := VisitImport(canon, items[i], stack, before);
          if r.Failure? { return; }
        }
      }
      assert items[..|items|] == items;
      return Success(());
    }

    method VisitImport(canon: Path, imp: Item, ghost stack: seq<Path>, ghost before: set<Path>) returns (r: Result<(), Error>)
      requires Valid() && onStack == (set p | p in stack + [canon])
      requires Walk(project, stack + [canon])
      requires canon in project.files && imp in project.files[canon] && imp.Import?
      requires nativeItems.Keys <= done + onStack && FinishedBelow(canon, before)
      modifies this
      ensures CacheValid()
      ensures r.Success? ==>
        && Valid() && onStack == old(onStack) && old(nativeItems.Keys) <= nativeItems.Keys <= done + onStack
        && old(order) <= order && old(done) <= done && FinishedBelow(canon, before)
        && ImportOk(project, canon, imp) && project.targets[(canon, imp.from)] in done
      ensures r.Failure? ==> Explains(project, canon, r.error)
      decreases project.files.Keys - onStack, 1
    {
      var checked := CheckImport(canon, imp);
      if checked.Failure? { return Failure(checked.error); }
      WalkExtends(project, stack, canon, checked.value);
      ghost var between := done;
      r := Visit(checked.value, stack + [canon]);
      if r.Failure? {
        ExplainedThrough(project, canon, checked.value, r.error);
      } else {
        FinishedThrough(canon, checked.value, before, between);
      }
    }

    /** Every file finished since `before` is reachable from `canon`. */
    ghost predicate FinishedBelow(canon: Path, before: set<Path>)
      reads this
    {
      before <= done && forall p | p in done && p !in before :: Reaches(project, canon, p)
    }

    lemma FinishedThrough(canon: Path, target: Path, before: set<Path>, between: set<Path>)
      requires Edge(project, canon, target) && FinishedBelow(target, between)
      requires before <= between && forall p | p in between && p !in before :: Reaches(project, canon, p)
      ensures FinishedBelow(canon, before)
    {
      forall p | p in done && p !in before
        ensures Reaches(project, canon, p)
      {
        if p !in between { ReachesVia(project, canon, target, p); }
      }
    }

    ghost predicate ImportsDone(canon: Path, items: seq<Item>)
      reads this
    {
      forall i | i in items && i.Import? :: ImportOk(project, canon, i) && project.targets[(canon, i.from)] in done
    }

    /** Takes `canon` off the stack once its imports are done, and appends its own items. */
    method Finish(canon: Path, items: seq<Item>)
      requires Valid() && canon in onStack && canon in nativeItems && items == project.files[canon]
      requires ImportsDone(canon, items)
      modifies this`merged, this`mergedFiles, this`onStack, this`done, this`order
      ensures Valid() && order == old(order) + [canon]
      ensures onStack == old(onStack) - {canon} && done == old(done) + {canon}
    {
      hide Topological, Merged, MergedFiles, Native;
      OrderExtends(project, order, canon);
      MergeNative(canon, items);
      onStack := onStack - {canon};
      done := done + {canon};
      order := order + [canon];
      assert Merges(project, order, done, merged, mergedFiles);
    }

    /** The items of a finished file, imports left out, and its name once for each of them. */
    method MergeNative(canon: Path, items: seq<Item>)
      modifies this`merged, this`mergedFiles
      ensures merged == old(merged) + Native(items)
      ensures mergedFiles == old(mergedFiles) + seq(|Native(items)|, _ => canon)
    {
      for i := 0 to |items|
        invariant merged + Native(items[i..]) == old(merged) + Native(items)
        invariant mergedFiles + seq(|Native(items[i..])|, _ => canon) == old(mergedFiles) + seq(|Native(items)|, _ => canon)
      {
        assert items[i..][1..] == items[i + 1..];
        if !items[i].Import? {
          merged := merged + [items[i]];
          mergedFiles := mergedFiles + [canon];
        }
      }
    }
  }

  lemma StackCycle(project: Project, stack: seq<Path>, canon: Path)
    requires Walk(project, stack + [canon]) && canon in stack
    ensures OnCycle(project, canon)
  {
    var i :| 0 <= i < |stack| && stack[i] == canon;
    var w := (stack + [canon])[i..];
    forall n | 0 <= n < |w| - 1
      ensures Edge(project, w[n], w[n + 1])
    {
      assert Edge(project, (stack + [canon])[i + n], (stack + [canon])[i + n + 1]);
    }
    assert WalkFrom(project, w, canon, canon);
  }

  lemma WalkExtends(project: Project, stack: seq<Path>, canon: Path, target: Path)
    requires Walk(project, stack + [canon]) && Edge(project, canon, target)
    ensures Walk(project, stack + [canon] + [target])
  {
    var w, v := stack + [canon], stack + [canon] + [target];
    forall n | 0 <= n < |v| - 1
      ensures Edge(project, v[n], v[n + 1])
    {
      if n < |w| - 1 { assert Edge(project, w[n], w[n + 1]); }
    }
  }

  lemma OrderExtends(project: Project, order: seq<Path>, p: Path)
    requires Topological(project, order) && p !in order && FileOk(project, p)
    requires forall i | i in project.files[p] && i.Import? :: project.targets[(p, i.from)] in order
    ensures Topological(project, order + [p])
    ensures Merged(project, order + [p]) == Merged(project, order) + Native(project.files[p])
    ensures MergedFiles(project, order + [p]) == MergedFiles(project, order) + seq(|Native(project.files[p])|, _ => p)
  {
    var longer := order + [p];
    assert longer[..|order|] == order;
    forall i, q | 0 <= i < |longer| && Edge(project, longer[i], q)
      ensures q in longer[..i]
    {
      if i < |order| {
        assert Edge(project, order[i], q);
        assert longer[..i] == order[..i];
      }
    }
  }

  /** `load_program`: it succeeds exactly when everything reachable is sound and acyclic, and then
      merges each reachable file once, after the files it imports. */
  method LoadProgram(project: Project, entry: Path)
    returns (r: Result<(seq<Item>, seq<Path>, seq<Path>), Error>, ghost order: seq<Path>)
    ensures r.Success? <==> Loadable(project, entry)
    ensures r.Failure? ==> Explains(project, entry, r.error)
    ensures r.Success? ==>
      && Topological(project, order) && (forall p :: p in order <==> Reaches(project, entry, p))
      && r.value.0 == Merged(project, order) && r.value.2 == MergedFiles(project, order)
      && |r.value.0| == |r.value.2|
      && (forall p | p in r.value.2 :: p in order) && ImportsFirst(project, r.value.2)
      && (forall p | p in order :: p in project.files && KeepsItems(project.files[p], p, r.value.0, r.value.2))
      && (forall i, j | 0 <= i < j < |r.value.1| :: r.value.1[i] != r.value.1[j])
      && (forall p :: p in r.value.1 <==> p in order)
  {
    hide KeepsItems, ImportsFirst, Merged, MergedFiles, Topological, Loadable, Explains, Reaches;
    var loader := new Loader(project);
    var v := loader.Visit(entry, []);
    order := loader.order;
    if v.Failure? {
      ExplainedIsNotLoadable(project, entry, v.error);
      return Failure(v.error), order;
    }
    OrderedIsLoadable(project, order, entry);
    MergedWell(project, order);
    r := Success((loader.merged, loader.touched, loader.mergedFiles));
  }
}
