/** Discovery of the packages deployed to the SSISDB catalog: every folder's
    projects are fetched first, then each project's package paths are
    listed and every package is taken from the package cache. */
module CatalogWalker {
  import opened Effects
  import opened Packages

  /** The catalog and the package cache as the walk sees them. A `None`
      answer stands for a call that throws. */
  datatype Catalog = Catalog(
    folders: Option<seq<string>>,
    projectsOf: string -> Option<seq<Project>>,
    packagePaths: string -> Option<seq<string>>,
    getPackage: string -> Option<Package>)

  const FoldersOperation: string := "Loading folders ..."

  function ProjectOperation(p: Project): string
  {
    "Loading packages in project " + p.name + "..."
  }

  /** The progress record as it is written before the folders are read. */
  function FoldersRecord(rec: ProgressRecord): ProgressRecord
  {
    rec.(currentOperation := Some(FoldersOperation))
  }

  /** The progress record as it is written before project `p` is walked. */
  function ProjectRecord(rec: ProgressRecord, p: Project): ProgressRecord
  {
    rec.(currentOperation := Some(ProjectOperation(p)))
  }

  /** Fetch the project list of one folder; its one value is that list. */
  function ProjectsStep(c: Catalog, folder: string): Run<seq<Project>>
  {
    Run(match c.projectsOf(folder)
        case None => None
        case Some(ps) => Some([ps]),
        [Remote(GetProjectsForFolder(folder))])
  }

  function ProjectLister(c: Catalog): string -> Run<seq<Project>>
  {
    folder => ProjectsStep(c, folder)
  }

  /** Take one package of project `p` from the cache. */
  function PathStep(c: Catalog, p: Project, path: string): Run<PackageDescriptor>
  {
    Run(match c.getPackage(path)
        case None => None
        case Some(pkg) => Some([PackageDescriptor(pkg, Some(p), path)]),
        [Remote(GetCachedPackage(path))])
  }

  function PathResolver(c: Catalog, p: Project): string -> Run<PackageDescriptor>
  {
    path => PathStep(c, p, path)
  }

  /** Report project `p`, list its package paths and resolve each of them. */
  function ProjectStep(c: Catalog, rec: ProgressRecord, p: Project): Run<PackageDescriptor>
  {
    var head := [WriteProgress(ProjectRecord(rec, p)), Remote(GetLocalPackagePaths(p.path))];
    match c.packagePaths(p.path)
    case None => Run(None, head)
    case Some(paths) =>
      var r := Fold(paths, PathResolver(c, p));
      Run(r.result, head + r.trace)
  }

  function ProjectWalker(c: Catalog, rec: ProgressRecord): Project -> Run<PackageDescriptor>
  {
    p => ProjectStep(c, rec, p)
  }

  /** Walk the projects of one folder, in order. */
  function ListWalker(c: Catalog, rec: ProgressRecord): seq<Project> -> Run<PackageDescriptor>
  {
    ps => Fold(ps, ProjectWalker(c, rec))
  }

  /** The whole catalog walk: report, read the folders, fetch every folder's
      project list, then walk the lists in order. */
  function CatalogRun(c: Catalog, rec: ProgressRecord): Run<PackageDescriptor>
  {
    var head := [WriteProgress(FoldersRecord(rec)), Remote(ListCatalogFolders)];
    match c.folders
    case None => Run(None, head)
    case Some(fs) =>
      var lists := Fold(fs, ProjectLister(c));
      if lists.result.None? then Run(None, head + lists.trace)
      else
        var body := Fold(lists.result.value, ListWalker(c, rec));
        Run(body.result, head + lists.trace + body.trace)
  }

  /** The catalog walk once the project lists are known. */
  lemma CatalogRunListed(c: Catalog, rec: ProgressRecord, projects: seq<seq<Project>>, listed: seq<Effect>)
    requires c.folders.Some?
    requires Fold(c.folders.value, ProjectLister(c)) == Run(Some(projects), listed)
    ensures CatalogRun(c, rec)
      == var body := Fold(projects, ListWalker(c, rec));
         Run(body.result, [WriteProgress(FoldersRecord(rec)), Remote(ListCatalogFolders)]
                          + listed + body.trace)
  {
  }

  /** A project step writes exactly one progress record. */
  lemma ProjectStepWrites(c: Catalog, rec: ProgressRecord, p: Project)
    ensures Writes(ProjectStep(c, rec, p).trace) == [ProjectRecord(rec, p)]
  {
    var head := [WriteProgress(ProjectRecord(rec, p)), Remote(GetLocalPackagePaths(p.path))];
    WritesPair(ProjectRecord(rec, p), GetLocalPackagePaths(p.path));
    match c.packagePaths(p.path)
    case None =>
    case Some(paths) =>
      var r := Fold(paths, PathResolver(c, p));
      FoldAll(paths, PathResolver(c, p), NotWrite());
      NoWrites(r.trace);
      WritesAppend(head, r.trace);
  }

  /** Fetching the project lists makes remote calls only. */
  lemma ListingWritesNothing(c: Catalog, folders: seq<string>)
    ensures Writes(Fold(folders, ProjectLister(c)).trace) == []
  {
    FoldAll(folders, ProjectLister(c), NotWrite());
    NoWrites(Fold(folders, ProjectLister(c)).trace);
  }

  /** The project lists of all folders, fetched one folder after the other
      before any project is walked. */
  method FetchProjectLists(c: Catalog, folders: seq<string>)
    returns (projects: Option<seq<seq<Project>>>, calls: seq<Effect>)
    ensures Run(projects, calls) == Fold(folders, ProjectLister(c))
  {
    var lists: seq<seq<Project>> := [];
    calls := [];
    var i := 0;
    while i < |folders|
      invariant 0 <= i <= |folders|
      invariant Fold(folders[..i], ProjectLister(c)) == Run(Some(lists), calls)
    {
      var folder := folders[i];
      FoldSnoc(folders, ProjectLister(c), i);
      calls := calls + [Remote(GetProjectsForFolder(folder))];
      var answer := c.projectsOf(folder);
      if answer.None? {
        FoldStops(folders, ProjectLister(c), i + 1);
        return None, calls;
      }
      lists := lists + [answer.value];
      i := i + 1;
    }
    assert folders[..i] == folders;
    projects := Some(lists);
  }

  /** Report project `item`, list its package paths and take each package
      from the cache, in path order. */
  method LoadProjectPackages(c: Catalog, progress: ProgressRecord, item: Project)
    returns (packages: Option<seq<PackageDescriptor>>, trace: seq<Effect>)
    ensures Run(packages, trace) == ProjectStep(c, progress, item)
  {
    trace := [WriteProgress(ProjectRecord(progress, item)), Remote(GetLocalPackagePaths(item.path))];
    var answer := c.packagePaths(item.path);
    if answer.None? {
      return None, trace;
    }
    var paths := answer.value;
    ghost var head := trace;
    var found: seq<PackageDescriptor> := [];
    ghost var calls: seq<Effect> := [];
    var k := 0;
    while k < |paths|
      invariant 0 <= k <= |paths|
      invariant Fold(paths[..k], PathResolver(c, item)) == Run(Some(found), calls)
      invariant trace == head + calls
    {
      var path := paths[k];
      FoldSnoc(paths, PathResolver(c, item), k);
      trace := trace + [Remote(GetCachedPackage(path))];
      calls := calls + [Remote(GetCachedPackage(path))];
      var package := c.getPackage(path);
      if package.None? {
        FoldStops(paths, PathResolver(c, item), k + 1);
        return None, trace;
      }
      found := found + [PackageDescriptor(package.value, Some(item), path)];
      k := k + 1;
    }
    assert paths[..k] == paths;
    packages := Some(found);
  }

  /** Walk the projects of one folder's list in order. */
  method WalkProjects(c: Catalog, progress: ProgressRecord, current: ProgressRecord, list: seq<Project>)
    returns (packages: Option<seq<PackageDescriptor>>, trace: seq<Effect>, progressAfter: ProgressRecord)
    ensures Run(packages, trace) == ListWalker(c, progress)(list)
    ensures progressAfter == After(current, trace)
  {
    var found: seq<PackageDescriptor> := [];
    trace := [];
    progressAfter := current;
    var pj := 0;
    assert list[..0] == [];
    while pj < |list|
      invariant 0 <= pj <= |list|
      invariant Fold(list[..pj], ProjectWalker(c, progress)) == Run(Some(found), trace)
      invariant progressAfter == After(current, trace)
    {
      var item := list[pj];
      var loaded, projectTrace := LoadProjectPackages(c, progress, item);
      ProjectStepWrites(c, progress, item);
      AfterAppend(current, trace, projectTrace);
      progressAfter := ProjectRecord(progress, item);
      if loaded.None? {
        FoldStopsAt(list, ProjectWalker(c, progress), pj);
        return None, trace + projectTrace, progressAfter;
      }
      FoldGrows(list, ProjectWalker(c, progress), pj);
      found := found + loaded.value;
      trace := trace + projectTrace;
      pj := pj + 1;
    }
    assert list[..pj] == list;
    packages := Some(found);
  }

  /** Walk the folders' project lists in order. */
  method WalkProjectLists(c: Catalog, progress: ProgressRecord, current: ProgressRecord, projects: seq<seq<Project>>)
    returns (packages: Option<seq<PackageDescriptor>>, trace: seq<Effect>, progressAfter: ProgressRecord)
    ensures Run(packages, trace) == Fold(projects, ListWalker(c, progress))
    ensures progressAfter == After(current, trace)
  {
    var found: seq<PackageDescriptor> := [];
    trace := [];
    progressAfter := current;
    var li := 0;
    assert projects[..0] == [];
    while li < |projects|
      invariant 0 <= li <= |projects|
      invariant Fold(projects[..li], ListWalker(c, progress)) == Run(Some(found), trace)
      invariant progressAfter == After(current, trace)
    {
      var loaded, listTrace, listAfter := WalkProjects(c, progress, progressAfter, projects[li]);
      AfterSeq(current, trace, listTrace);
      progressAfter := listAfter;
      if loaded.None? {
        FoldStopsAt(projects, ListWalker(c, progress), li);
        return None, trace + listTrace, progressAfter;
      }
      FoldGrows(projects, ListWalker(c, progress), li);
      found := found + loaded.value;
      trace := trace + listTrace;
      li := li + 1;
    }
    assert projects[..li] == projects;
    packages := Some(found);
  }

  /** The catalog walk: report, read the folders, fetch every folder's
      project list, then walk each list's projects in order; the first call
      that throws ends the walk. `progress` is the shared progress record on
      entry and `progressAfter` the record as the walk leaves it. */
  method LoadCatalogPackages(c: Catalog, progress: ProgressRecord)
    returns (packages: Option<seq<PackageDescriptor>>, trace: seq<Effect>, progressAfter: ProgressRecord)
    ensures Run(packages, trace) == CatalogRun(c, progress)
    ensures progressAfter == After(progress, trace)
  {
    progressAfter := FoldersRecord(progress);
    trace := [WriteProgress(progressAfter), Remote(ListCatalogFolders)];
    CatalogHeadAfter(progress, trace);
    if c.folders.None? {
      packages := None;
    } else {
      var answer, listed := FetchProjectLists(c, c.folders.value);
      ListingWritesNothing(c, c.folders.value);
      AfterAppend(progress, trace, listed);
      trace := trace + listed;
      if answer.None? {
        packages := None;
      } else {
        var body, bodyAfter;
        packages, body, bodyAfter := WalkProjectLists(c, progress, progressAfter, answer.value);
        AfterSeq(progress, trace, body);
        CatalogRunListed(c, progress, answer.value, listed);
        trace := trace + body;
        progressAfter := bodyAfter;
      }
    }
  }

  lemma CatalogHeadAfter(rec: ProgressRecord, t: seq<Effect>)
    requires t == [WriteProgress(FoldersRecord(rec)), Remote(ListCatalogFolders)]
    ensures After(rec, t) == FoldersRecord(rec)
  {
    WritesPair(FoldersRecord(rec), ListCatalogFolders);
  }

  /*
   * What the catalog walk finds, independently of how it walks.
   */

  /** The sequence an answer holds, or none when the call threw. */
  function OrEmpty<T>(o: Option<seq<T>>): seq<T>
  {
    match o
    case None => []
    case Some(v) => v
  }

  /** The project lists of folders `fs`, as the catalog answers them. */
  ghost function FolderProjects(c: Catalog, fs: seq<string>): seq<seq<Project>>
  {
    seq(|fs|, i requires 0 <= i < |fs| => OrEmpty(c.projectsOf(fs[i])))
  }

  /** Every project of the catalog, folder by folder and in each folder's
      order. */
  ghost function AllProjects(c: Catalog): seq<Project>
  {
    Concat(FolderProjects(c, OrEmpty(c.folders)))
  }

  /** The package the cache holds at `path`; a placeholder when it throws,
      which no successful walk reaches. */
  ghost function CachedOr(c: Catalog, path: string): Package
  {
    match c.getPackage(path)
    case None => Package("", 0)
    case Some(pkg) => pkg
  }

  /** One descriptor per path of project `p`, in path order. */
  ghost function PathDescriptors(c: Catalog, p: Project, paths: seq<string>): seq<PackageDescriptor>
  {
    seq(|paths|, i requires 0 <= i < |paths| => PackageDescriptor(CachedOr(c, paths[i]), Some(p), paths[i]))
  }

  /** The descriptors of the packages of projects `ps`, project by project. */
  ghost function ProjectDescriptors(c: Catalog, ps: seq<Project>): seq<PackageDescriptor>
    decreases |ps|
  {
    if ps == [] then []
    else
      var p := ps[|ps| - 1];
      ProjectDescriptors(c, ps[..|ps| - 1]) + PathDescriptors(c, p, OrEmpty(c.packagePaths(p.path)))
  }

  /** Every package of the catalog, as a successful walk must report them. */
  ghost function ExpectedPackages(c: Catalog): seq<PackageDescriptor>
  {
    ProjectDescriptors(c, AllProjects(c))
  }

  /** The progress records written before the projects `ps`, in order. */
  function ProjectRecords(rec: ProgressRecord, ps: seq<Project>): seq<ProgressRecord>
  {
    seq(|ps|, i requires 0 <= i < |ps| => ProjectRecord(rec, ps[i]))
  }

  lemma FoldersListed(c: Catalog, fs: seq<string>)
    requires Fold(fs, ProjectLister(c)).result.Some?
    ensures Fold(fs, ProjectLister(c)).result.value == FolderProjects(c, fs)
  {
    FoldSucceeds(fs, ProjectLister(c));
    FlatSingletons(fs, ProjectLister(c));
  }

  lemma PathsResolved(c: Catalog, p: Project, paths: seq<string>)
    requires Fold(paths, PathResolver(c, p)).result.Some?
    ensures Fold(paths, PathResolver(c, p)).result.value == PathDescriptors(c, p, paths)
  {
    FoldSucceeds(paths, PathResolver(c, p));
    FlatSingletons(paths, PathResolver(c, p));
  }

  lemma {:induction false} ProjectDescriptorsAppend(c: Catalog, a: seq<Project>, b: seq<Project>)
    ensures ProjectDescriptors(c, a + b) == ProjectDescriptors(c, a) + ProjectDescriptors(c, b)
    decreases |b|
  {
    if b == [] {
      assert a + b == a;
    } else {
      var init := b[..|b| - 1];
      assert (a + b)[..|a + b| - 1] == a + init;
      assert (a + b)[|a + b| - 1] == b[|b| - 1];
      ProjectDescriptorsAppend(c, a, init);
    }
  }

  lemma {:induction false} ProjectsResolved(c: Catalog, rec: ProgressRecord, ps: seq<Project>)
    requires Fold(ps, ProjectWalker(c, rec)).result.Some?
    ensures Fold(ps, ProjectWalker(c, rec)).result.value == ProjectDescriptors(c, ps)
    decreases |ps|
  {
    if ps != [] {
      var init := ps[..|ps| - 1];
      var p := ps[|ps| - 1];
      assert Fold(ps, ProjectWalker(c, rec)) == AndThen(Fold(init, ProjectWalker(c, rec)), ProjectStep(c, rec, p));
      ProjectsResolved(c, rec, init);
      PathsResolved(c, p, c.packagePaths(p.path).value);
    }
  }

  lemma {:induction false} ListsResolved(c: Catalog, rec: ProgressRecord, xss: seq<seq<Project>>)
    requires Fold(xss, ListWalker(c, rec)).result.Some?
    ensures Fold(xss, ListWalker(c, rec)).result.value == ProjectDescriptors(c, Concat(xss))
    decreases |xss|
  {
    if xss != [] {
      var init := xss[..|xss| - 1];
      var ps := xss[|xss| - 1];
      assert Fold(xss, ListWalker(c, rec)) == AndThen(Fold(init, ListWalker(c, rec)), Fold(ps, ProjectWalker(c, rec)));
      ListsResolved(c, rec, init);
      ProjectsResolved(c, rec, ps);
      ProjectDescriptorsAppend(c, Concat(init), ps);
    }
  }

  /** A catalog walk that succeeds reports every package of every project
      of every folder: folder by folder, project by project, path by path,
      each with its project and its path. */
  lemma CatalogFindsEveryPackage(c: Catalog, rec: ProgressRecord)
    requires CatalogRun(c, rec).result.Some?
    ensures CatalogRun(c, rec).result.value == ExpectedPackages(c)
  {
    var fs := c.folders.value;
    FoldersListed(c, fs);
    ListsResolved(c, rec, Fold(fs, ProjectLister(c)).result.value);
  }

  lemma {:induction false} ProjectsWrites(c: Catalog, rec: ProgressRecord, ps: seq<Project>)
    requires Fold(ps, ProjectWalker(c, rec)).result.Some?
    ensures Writes(Fold(ps, ProjectWalker(c, rec)).trace) == ProjectRecords(rec, ps)
    decreases |ps|
  {
    if ps != [] {
      var init := ps[..|ps| - 1];
      var p := ps[|ps| - 1];
      var a := Fold(init, ProjectWalker(c, rec));
      assert Fold(ps, ProjectWalker(c, rec)) == AndThen(a, ProjectStep(c, rec, p));
      ProjectsWrites(c, rec, init);
      ProjectStepWrites(c, rec, p);
      WritesAppend(a.trace, ProjectStep(c, rec, p).trace);
      assert ProjectRecords(rec, ps) == ProjectRecords(rec, init) + [ProjectRecord(rec, p)];
    }
  }

  lemma {:induction false} ListsWrites(c: Catalog, rec: ProgressRecord, xss: seq<seq<Project>>)
    requires Fold(xss, ListWalker(c, rec)).result.Some?
    ensures Writes(Fold(xss, ListWalker(c, rec)).trace) == ProjectRecords(rec, Concat(xss))
    decreases |xss|
  {
    if xss != [] {
      var init := xss[..|xss| - 1];
      var ps := xss[|xss| - 1];
      var a := Fold(init, ListWalker(c, rec));
      assert Fold(xss, ListWalker(c, rec)) == AndThen(a, Fold(ps, ProjectWalker(c, rec)));
      ListsWrites(c, rec, init);
      ProjectsWrites(c, rec, ps);
      WritesAppend(a.trace, Fold(ps, ProjectWalker(c, rec)).trace);
      ProjectRecordsAppend(rec, Concat(init), ps);
    }
  }

  lemma ProjectRecordsAppend(rec: ProgressRecord, a: seq<Project>, b: seq<Project>)
    ensures ProjectRecords(rec, a + b) == ProjectRecords(rec, a) + ProjectRecords(rec, b)
  {
  }

  /** A catalog walk that succeeds writes the folders record and then one
      record per project, in the order the projects are walked; each is the
      entry record with only its current operation replaced. */
  lemma CatalogProgress(c: Catalog, rec: ProgressRecord)
    requires CatalogRun(c, rec).result.Some?
    ensures Writes(CatalogRun(c, rec).trace) == [FoldersRecord(rec)] + ProjectRecords(rec, AllProjects(c))
  {
    var fs := c.folders.value;
    var lists := Fold(fs, ProjectLister(c));
    var body := Fold(lists.result.value, ListWalker(c, rec));
    var head := [WriteProgress(FoldersRecord(rec)), Remote(ListCatalogFolders)];
    FoldersListed(c, fs);
    ListingWritesNothing(c, fs);
    ListsWrites(c, rec, lists.result.value);
    WritesPair(FoldersRecord(rec), ListCatalogFolders);
    WritesAppend(head, lists.trace);
    WritesAppend(head + lists.trace, body.trace);
  }

  /** An interaction of the per-project phase: a progress write, a listing
      of a project's package paths, or a package taken from the cache. */
  function InProjectPhase(): Effect -> bool
  {
    (e: Effect) => e.WriteProgress? || e.call.GetLocalPackagePaths? || e.call.GetCachedPackage?
  }

  lemma {:induction false} ListingCalls(c: Catalog, fs: seq<string>)
    requires Fold(fs, ProjectLister(c)).result.Some?
    ensures Fold(fs, ProjectLister(c)).trace
      == seq(|fs|, i requires 0 <= i < |fs| => Remote(GetProjectsForFolder(fs[i])))
    decreases |fs|
  {
    if fs != [] {
      var init := fs[..|fs| - 1];
      assert Fold(fs, ProjectLister(c)) == AndThen(Fold(init, ProjectLister(c)), ProjectsStep(c, fs[|fs| - 1]));
      ListingCalls(c, init);
    }
  }

  lemma ProjectStepPhase(c: Catalog, rec: ProgressRecord, p: Project)
    ensures AllEffects(ProjectStep(c, rec, p).trace, InProjectPhase())
  {
    if c.packagePaths(p.path).Some? {
      FoldAll(c.packagePaths(p.path).value, PathResolver(c, p), InProjectPhase());
    }
  }

  lemma ListsPhase(c: Catalog, rec: ProgressRecord, xss: seq<seq<Project>>)
    ensures AllEffects(Fold(xss, ListWalker(c, rec)).trace, InProjectPhase())
  {
    forall ps | ps in xss
      ensures AllEffects(ListWalker(c, rec)(ps).trace, InProjectPhase())
    {
      forall p | p in ps
        ensures AllEffects(ProjectWalker(c, rec)(p).trace, InProjectPhase())
      {
        ProjectStepPhase(c, rec, p);
      }
      FoldAll(ps, ProjectWalker(c, rec), InProjectPhase());
    }
    FoldAll(xss, ListWalker(c, rec), InProjectPhase());
  }

  /** When every folder's project list can be fetched, the walk reports,
      reads the folders, fetches the project list of every folder in folder
      order, and only then starts on the projects: nothing after those
      fetches reads the folders or fetches a project list again. */
  lemma CatalogListsProjectsFirst(c: Catalog, rec: ProgressRecord)
    requires c.folders.Some?
    requires forall f :: f in c.folders.value ==> c.projectsOf(f).Some?
    ensures var t := CatalogRun(c, rec).trace;
            var fs := c.folders.value;
            && |t| >= 2 + |fs|
            && t[0] == WriteProgress(FoldersRecord(rec))
            && t[1] == Remote(ListCatalogFolders)
            && (forall i :: 0 <= i < |fs| ==> t[2 + i] == Remote(GetProjectsForFolder(fs[i])))
            && AllEffects(t[2 + |fs|..], InProjectPhase())
  {
    var fs := c.folders.value;
    var lists := Fold(fs, ProjectLister(c));
    FoldSucceeds(fs, ProjectLister(c));
    ListingCalls(c, fs);
    var body := Fold(lists.result.value, ListWalker(c, rec));
    ListsPhase(c, rec, lists.result.value);
    CatalogRunListed(c, rec, lists.result.value, lists.trace);
    ListsFirst(FoldersRecord(rec), fs, lists.trace, body.trace);
  }

  /** The layout of a catalog walk's trace: the opening write and folder
      read, one project-list fetch per folder, then the project phase. */
  lemma ListsFirst(r: ProgressRecord, fs: seq<string>, listed: seq<Effect>, rest: seq<Effect>)
    requires listed == seq(|fs|, i requires 0 <= i < |fs| => Remote(GetProjectsForFolder(fs[i])))
    requires AllEffects(rest, InProjectPhase())
    ensures var t := [WriteProgress(r), Remote(ListCatalogFolders)] + listed + rest;
            && |t| >= 2 + |fs|
            && t[0] == WriteProgress(r)
            && t[1] == Remote(ListCatalogFolders)
            && (forall i :: 0 <= i < |fs| ==> t[2 + i] == Remote(GetProjectsForFolder(fs[i])))
            && AllEffects(t[2 + |fs|..], InProjectPhase())
  {
    var t := [WriteProgress(r), Remote(ListCatalogFolders)] + listed + rest;
    assert t[2 + |fs|..] == rest;
  }

  /** Whether `e` is a call that the catalog or the cache answers by
      throwing. */
  function Throws(c: Catalog): Effect -> bool
  {
    (e: Effect) =>
      && e.Remote?
      && match e.call
         case ListCatalogFolders => c.folders.None?
         case GetProjectsForFolder(f) => c.projectsOf(f).None?
         case GetLocalPackagePaths(path) => c.packagePaths(path).None?
         case GetCachedPackage(path) => c.getPackage(path).None?
         case _ => false
  }

  lemma ProjectStepEnds(c: Catalog, rec: ProgressRecord, p: Project)
    ensures EndsAtFirst(ProjectStep(c, rec, p), Throws(c))
  {
    var head := [WriteProgress(ProjectRecord(rec, p)), Remote(GetLocalPackagePaths(p.path))];
    if c.packagePaths(p.path).Some? {
      var paths := c.packagePaths(p.path).value;
      FoldEndsAtFirst(paths, PathResolver(c, p), Throws(c));
      EndsAtFirstAfter(head, Fold(paths, PathResolver(c, p)), Throws(c));
    }
  }

  lemma ListsEnd(c: Catalog, rec: ProgressRecord, xss: seq<seq<Project>>)
    ensures EndsAtFirst(Fold(xss, ListWalker(c, rec)), Throws(c))
  {
    forall ps | ps in xss
      ensures EndsAtFirst(ListWalker(c, rec)(ps), Throws(c))
    {
      forall p | p in ps
        ensures EndsAtFirst(ProjectWalker(c, rec)(p), Throws(c))
      {
        ProjectStepEnds(c, rec, p);
      }
      FoldEndsAtFirst(ps, ProjectWalker(c, rec), Throws(c));
    }
    FoldEndsAtFirst(xss, ListWalker(c, rec), Throws(c));
  }

  /** The catalog walk fails exactly when one of its calls throws, and then
      that call is its last interaction: nothing is called after it. */
  lemma CatalogEndsAtFirstThrow(c: Catalog, rec: ProgressRecord)
    ensures EndsAtFirst(CatalogRun(c, rec), Throws(c))
  {
    var head := [WriteProgress(FoldersRecord(rec)), Remote(ListCatalogFolders)];
    if c.folders.Some? {
      var fs := c.folders.value;
      var lists := Fold(fs, ProjectLister(c));
      FoldEndsAtFirst(fs, ProjectLister(c), Throws(c));
      EndsAtFirstAfter(head, lists, Throws(c));
      if lists.result.Some? {
        var body := Fold(lists.result.value, ListWalker(c, rec));
        ListsEnd(c, rec, lists.result.value);
        EndsAtFirstAfter(head + lists.trace, body, Throws(c));
        assert head + lists.trace + body.trace == CatalogRun(c, rec).trace;
      }
    }
  }

  lemma ProjectStepKeeps(c: Catalog, rec: ProgressRecord, p: Project)
    ensures AllEffects(ProjectStep(c, rec, p).trace, KeptFrom(rec))
  {
    if c.packagePaths(p.path).Some? {
      FoldAll(c.packagePaths(p.path).value, PathResolver(c, p), KeptFrom(rec));
    }
  }

  /** Every record the catalog walk writes is the entry record with only
      its current operation replaced, whatever the outcome. */
  lemma CatalogKeeps(c: Catalog, rec: ProgressRecord)
    ensures AllEffects(CatalogRun(c, rec).trace, KeptFrom(rec))
  {
    if c.folders.Some? {
      var fs := c.folders.value;
      var lists := Fold(fs, ProjectLister(c));
      FoldAll(fs, ProjectLister(c), KeptFrom(rec));
      if lists.result.Some? {
        var xss := lists.result.value;
        forall ps | ps in xss
          ensures AllEffects(ListWalker(c, rec)(ps).trace, KeptFrom(rec))
        {
          forall p | p in ps
            ensures AllEffects(ProjectWalker(c, rec)(p).trace, KeptFrom(rec))
          {
            ProjectStepKeeps(c, rec, p);
          }
          FoldAll(ps, ProjectWalker(c, rec), KeptFrom(rec));
        }
        FoldAll(xss, ListWalker(c, rec), KeptFrom(rec));
      }
    }
  }

  /** What a catalog walk returns does not depend on the progress record
      it writes. */
  lemma CatalogResultAnyRecord(c: Catalog, r1: ProgressRecord, r2: ProgressRecord)
    ensures CatalogRun(c, r1).result == CatalogRun(c, r2).result
  {
    if c.folders.Some? && Fold(c.folders.value, ProjectLister(c)).result.Some? {
      var xss := Fold(c.folders.value, ProjectLister(c)).result.value;
      forall ps | ps in xss
        ensures ListWalker(c, r1)(ps).result == ListWalker(c, r2)(ps).result
      {
        FoldResultsAgree(ps, ProjectWalker(c, r1), ProjectWalker(c, r2));
      }
      FoldResultsAgree(xss, ListWalker(c, r1), ListWalker(c, r2));
    }
  }

  /** A progress write, or a call into the catalog or the package cache. */
  function InCatalog(): Effect -> bool
  {
    (e: Effect) => e.WriteProgress? || !(e.call.ListEntries? || e.call.LoadPackage?)
  }

  /** A catalog walk makes calls into the catalog and the cache only. */
  lemma CatalogInCatalog(c: Catalog, rec: ProgressRecord)
    ensures AllEffects(CatalogRun(c, rec).trace, InCatalog())
  {
    if c.folders.Some? {
      var fs := c.folders.value;
      var lists := Fold(fs, ProjectLister(c));
      FoldAll(fs, ProjectLister(c), InCatalog());
      if lists.result.Some? {
        ListsPhase(c, rec, lists.result.value);
      }
    }
  }
}
