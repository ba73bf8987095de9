/** The recursive walk of a folder-organised package store, shared by
    `LoadDtsPackages` (the legacy DTS service) and `LoadSqlPackages` (msdb):
    list the entries at a path, load the package entries, walk the folder
    entries, and return this level's packages followed by every subfolder's. */
module FolderWalker {
  import opened Effects
  import opened Packages

  /** One folder-organised store as the walk sees it. `list` answers the
      listing request for a path and `load` the load request for a key;
      `None` is a call that throws. `rank` is a measure witnessing that the
      folder structure is finite and acyclic (see `Acyclic`). */
  datatype Store = Store(
    list: string -> Option<seq<PackageInfo>>,
    load: string -> Option<Package>,
    ghost rank: string -> nat)

  /** Every folder entry of a listing leads to a path of smaller rank, so
      that walking folder entries cannot go on for ever. */
  ghost predicate Acyclic(s: Store)
  {
    forall path, e :: s.list(path).Some? && e in s.list(path).value && e.flags == FolderFlag ==>
      s.rank(FullName(e)) < s.rank(path)
  }

  /** The current operation a walk sets before it lists `path`. */
  function OperationText(src: Source, path: string): string
  {
    match src
    case Dts => "Processing DTS path " + path + "..."
    case Sql => "Processing SQL path " + path + "..."
  }

  /** The progress record a walk of `path` writes. */
  function ProcessingRecord(src: Source, rec: ProgressRecord, path: string): ProgressRecord
  {
    rec.(currentOperation := Some(OperationText(src, path)))
  }

  /** Load a package entry by its `Folder\Name` key and wrap it with the path
      of the listing it came from. */
  function LoadStep(s: Store, src: Source, path: string, e: PackageInfo): Run<PackageDescriptor>
  {
    var key := FullName(e);
    Run(match s.load(key)
        case None => None
        case Some(p) => Some([PackageDescriptor(p, None, path)]),
        [Remote(LoadPackage(src, key))])
  }

  function Loader(s: Store, src: Source, path: string): PackageInfo -> Run<PackageDescriptor>
  {
    e => LoadStep(s, src, path, e)
  }

  /** The walk of `path` with the shared progress record `rec`: write the
      record naming `path`, list `path`, load its package entries, then walk
      its folder entries in listing order. A throwing load ends the walk
      before any folder entry is walked, as `AndThen` says. */
  function Walk(s: Store, src: Source, rec: ProgressRecord, path: string): Run<PackageDescriptor>
    requires Acyclic(s)
    decreases s.rank(path), 1, 0
  {
    var head := [WriteProgress(ProcessingRecord(src, rec, path)), Remote(ListEntries(src, path))];
    match s.list(path)
    case None => Run(None, head)
    case Some(entries) =>
      var loaded := Fold(FlaggedAs(entries, PackageFlag), Loader(s, src, path));
      AndThen(Run(loaded.result, head + loaded.trace),
              WalkFolders(s, src, rec, path, FlaggedAs(entries, FolderFlag)))
  }

  /** Walk each folder entry at `Folder\Name`, concatenating the results. */
  function WalkFolders(s: Store, src: Source, rec: ProgressRecord, parent: string, folders: seq<PackageInfo>): Run<PackageDescriptor>
    requires Acyclic(s)
    requires forall f :: f in folders ==> s.rank(FullName(f)) < s.rank(parent)
    decreases s.rank(parent), 0, |folders|
  {
    if folders == [] then Run(Some([]), [])
    else AndThen(Walk(s, src, rec, FullName(folders[0])), WalkFolders(s, src, rec, parent, folders[1..]))
  }

  // ----- the shape of a walk's trace -----

  /** The trace of a walk is a sequence of visits, each "write the record
      naming a path, list that path, load some packages": exactly one
      progress record per listing, written just before it, and no other
      kind of call. */
  ghost predicate Shaped(src: Source, rec: ProgressRecord, t: seq<Effect>)
    decreases |t|
  {
    if t == [] then true
    else if t[0].WriteProgress? then
      && |t| >= 2
      && t[1].Remote? && t[1].call.ListEntries? && t[1].call.source == src
      && t[0].record == ProcessingRecord(src, rec, t[1].call.path)
      && Shaped(src, rec, t[2..])
    else t[0].call.LoadPackage? && t[0].call.source == src && Shaped(src, rec, t[1..])
  }

  function IsLoadFrom(src: Source): Effect -> bool
  {
    (e: Effect) => e.Remote? && e.call.LoadPackage? && e.call.source == src
  }

  lemma {:induction false} LoadsShaped(src: Source, rec: ProgressRecord, t: seq<Effect>)
    requires AllEffects(t, IsLoadFrom(src))
    ensures Shaped(src, rec, t)
    decreases |t|
  {
    if t != [] {
      assert IsLoadFrom(src)(t[0]);
      assert forall e :: e in t[1..] ==> e in t;
      LoadsShaped(src, rec, t[1..]);
    }
  }

  lemma {:induction false} ShapedAppend(src: Source, rec: ProgressRecord, a: seq<Effect>, b: seq<Effect>)
    requires Shaped(src, rec, a) && Shaped(src, rec, b)
    ensures Shaped(src, rec, a + b)
    decreases |a|
  {
    if a == [] {
      assert a + b == b;
    } else if a[0].WriteProgress? {
      assert (a + b)[..2] == a[..2] && (a + b)[2..] == a[2..] + b;
      ShapedAppend(src, rec, a[2..], b);
    } else {
      assert (a + b)[0] == a[0] && (a + b)[1..] == a[1..] + b;
      ShapedAppend(src, rec, a[1..], b);
    }
  }

  lemma LoadedTraceIsLoads(s: Store, src: Source, path: string, pk: seq<PackageInfo>)
    ensures AllEffects(Fold(pk, Loader(s, src, path)).trace, IsLoadFrom(src))
  {
    forall e | e in pk
      ensures AllEffects(Loader(s, src, path)(e).trace, IsLoadFrom(src))
    {
      assert Loader(s, src, path)(e).trace == [Remote(LoadPackage(src, FullName(e)))];
    }
    FoldAll(pk, Loader(s, src, path), IsLoadFrom(src));
  }

  /** A walk's trace opens by writing the record naming its path and
      listing that path, and it is `Shaped`: one write per listing, just
      before it, whatever the outcome. */
  lemma {:induction false} WalkShaped(s: Store, src: Source, rec: ProgressRecord, path: string)
    requires Acyclic(s)
    ensures var t := Walk(s, src, rec, path).trace;
      && |t| >= 2
      && t[0] == WriteProgress(ProcessingRecord(src, rec, path))
      && t[1] == Remote(ListEntries(src, path))
      && Shaped(src, rec, t)
    decreases s.rank(path), 1, 1
  {
    var rest: seq<Effect> := [];
    if s.list(path).Some? {
      rest := WalkRestShaped(s, src, rec, path);
    }
    ShapedVisit(src, rec, path, rest);
  }

  /** What follows the opening write and listing of a walk is shaped. */
  lemma {:induction false} WalkRestShaped(s: Store, src: Source, rec: ProgressRecord, path: string) returns (rest: seq<Effect>)
    requires Acyclic(s) && s.list(path).Some?
    ensures Walk(s, src, rec, path).trace
      == [WriteProgress(ProcessingRecord(src, rec, path)), Remote(ListEntries(src, path))] + rest
    ensures Shaped(src, rec, rest)
    decreases s.rank(path), 1, 0
  {
    var head := [WriteProgress(ProcessingRecord(src, rec, path)), Remote(ListEntries(src, path))];
    var entries := s.list(path).value;
    var loaded := Fold(FlaggedAs(entries, PackageFlag), Loader(s, src, path));
    var folders := FlaggedAs(entries, FolderFlag);
    var kids := WalkFolders(s, src, rec, path, folders);
    assert Walk(s, src, rec, path) == AndThen(Run(loaded.result, head + loaded.trace), kids);
    AndThenTrace(loaded.result, head, loaded.trace, kids);
    LoadedTraceIsLoads(s, src, path, FlaggedAs(entries, PackageFlag));
    WalkFoldersShaped(s, src, rec, path, folders);
    rest := if loaded.result.Some? then loaded.trace + kids.trace else loaded.trace;
    LoadsThenShaped(src, rec, loaded.result.Some?, loaded.trace, kids.trace);
  }

  /** Loads, followed by a shaped trace when they all succeeded, are shaped. */
  lemma LoadsThenShaped(src: Source, rec: ProgressRecord, ok: bool, loads: seq<Effect>, t: seq<Effect>)
    requires AllEffects(loads, IsLoadFrom(src)) && Shaped(src, rec, t)
    ensures Shaped(src, rec, if ok then loads + t else loads)
  {
    LoadsShaped(src, rec, loads);
    if ok {
      ShapedAppend(src, rec, loads, t);
    }
  }

  /** A write naming `path` and the listing of `path`, followed by a shaped
      trace, is shaped. */
  lemma ShapedVisit(src: Source, rec: ProgressRecord, path: string, rest: seq<Effect>)
    requires Shaped(src, rec, rest)
    ensures var t := [WriteProgress(ProcessingRecord(src, rec, path)), Remote(ListEntries(src, path))] + rest;
      && t[0] == WriteProgress(ProcessingRecord(src, rec, path))
      && t[1] == Remote(ListEntries(src, path))
      && Shaped(src, rec, t)
  {
    var t := [WriteProgress(ProcessingRecord(src, rec, path)), Remote(ListEntries(src, path))] + rest;
    assert t[2..] == rest;
  }

  lemma {:induction false} WalkFoldersShaped(s: Store, src: Source, rec: ProgressRecord, parent: string, folders: seq<PackageInfo>)
    requires Acyclic(s)
    requires forall f :: f in folders ==> s.rank(FullName(f)) < s.rank(parent)
    ensures Shaped(src, rec, WalkFolders(s, src, rec, parent, folders).trace)
    decreases s.rank(parent), 0, |folders|
  {
    if folders != [] {
      assert forall f :: f in folders[1..] ==> f in folders;
      WalkShaped(s, src, rec, FullName(folders[0]));
      WalkFoldersShaped(s, src, rec, parent, folders[1..]);
      ShapedAppend(src, rec, Walk(s, src, rec, FullName(folders[0])).trace,
                   WalkFolders(s, src, rec, parent, folders[1..]).trace);
    }
  }

  /** The paths listed in a trace, in order. */
  function Listings(t: seq<Effect>): seq<string>
    decreases |t|
  {
    if t == [] then []
    else (if t[0].Remote? && t[0].call.ListEntries? then [t[0].call.path] else []) + Listings(t[1..])
  }

  /** The records written for a sequence of listed paths. */
  function ProcessingRecords(src: Source, rec: ProgressRecord, paths: seq<string>): seq<ProgressRecord>
  {
    seq(|paths|, i requires 0 <= i < |paths| => ProcessingRecord(src, rec, paths[i]))
  }

  /** In a shaped trace the records written are, one for one and in order,
      the records naming the listed paths. */
  lemma {:induction false} ShapedWrites(src: Source, rec: ProgressRecord, t: seq<Effect>)
    requires Shaped(src, rec, t)
    ensures Writes(t) == ProcessingRecords(src, rec, Listings(t))
    decreases |t|
  {
    if t != [] {
      if t[0].WriteProgress? {
        ShapedWrites(src, rec, t[2..]);
        VisitWritesAndListings(t);
        ProcessingRecordsCons(src, rec, t[1].call.path, Listings(t[2..]));
      } else {
        ShapedWrites(src, rec, t[1..]);
      }
    }
  }

  /** A visit's write and listing head the writes and the listings of a
      trace that opens with them. */
  lemma VisitWritesAndListings(t: seq<Effect>)
    requires |t| >= 2 && t[0].WriteProgress?
    requires t[1].Remote? && t[1].call.ListEntries?
    ensures Writes(t) == [t[0].record] + Writes(t[2..])
    ensures Listings(t) == [t[1].call.path] + Listings(t[2..])
  {
    assert t[1..][1..] == t[2..];
  }

  lemma ProcessingRecordsCons(src: Source, rec: ProgressRecord, p: string, ps: seq<string>)
    ensures ProcessingRecords(src, rec, [p] + ps)
      == [ProcessingRecord(src, rec, p)] + ProcessingRecords(src, rec, ps)
  {
  }

  /** Every record a shaped trace writes is `rec` with only its current
      operation changed. */
  lemma {:induction false} ShapedKeeps(src: Source, rec: ProgressRecord, t: seq<Effect>)
    requires Shaped(src, rec, t)
    ensures AllEffects(t, KeptFrom(rec))
    decreases |t|
  {
    if t != [] {
      if t[0].WriteProgress? {
        ShapedKeeps(src, rec, t[2..]);
        assert forall e :: e in t ==> e == t[0] || e == t[1] || e in t[2..];
      } else {
        ShapedKeeps(src, rec, t[1..]);
        assert forall e :: e in t ==> e == t[0] || e in t[1..];
      }
    }
  }

  // ----- what a walk returns -----

  /** Every interaction of the walk of a list of folders belongs to the
      walk of one of the folders. */
  lemma {:induction false} WalkFoldersTrace(s: Store, src: Source, rec: ProgressRecord, parent: string, folders: seq<PackageInfo>, x: Effect)
    requires Acyclic(s)
    requires forall f :: f in folders ==> s.rank(FullName(f)) < s.rank(parent)
    requires x in WalkFolders(s, src, rec, parent, folders).trace
    ensures exists k ::
      && 0 <= k < |folders|
      && x in Walk(s, src, rec, FullName(folders[k])).trace
      && forall y :: y in Walk(s, src, rec, FullName(folders[k])).trace ==> y in WalkFolders(s, src, rec, parent, folders).trace
    decreases |folders|
  {
    var first := Walk(s, src, rec, FullName(folders[0]));
    var tail := folders[1..];
    assert forall f :: f in tail ==> f in folders;
    var rest := WalkFolders(s, src, rec, parent, tail);
    assert WalkFolders(s, src, rec, parent, folders) == AndThen(first, rest);
    if x !in first.trace {
      WalkFoldersTrace(s, src, rec, parent, tail, x);
      var k :| 0 <= k < |tail| && x in Walk(s, src, rec, FullName(tail[k])).trace
        && forall y :: y in Walk(s, src, rec, FullName(tail[k])).trace ==> y in rest.trace;
      assert tail[k] == folders[k + 1];
    }
  }

  /** Every result of the walk of a list of folders comes from the walk of
      one of the folders. */
  lemma {:induction false} WalkFoldersValue(s: Store, src: Source, rec: ProgressRecord, parent: string, folders: seq<PackageInfo>, d: PackageDescriptor)
    requires Acyclic(s)
    requires forall f :: f in folders ==> s.rank(FullName(f)) < s.rank(parent)
    requires d in ValuesOf(WalkFolders(s, src, rec, parent, folders))
    ensures exists k :: 0 <= k < |folders| && d in ValuesOf(Walk(s, src, rec, FullName(folders[k])))
    decreases |folders|
  {
    var first := Walk(s, src, rec, FullName(folders[0]));
    var tail := folders[1..];
    assert forall f :: f in tail ==> f in folders;
    var rest := WalkFolders(s, src, rec, parent, tail);
    assert WalkFolders(s, src, rec, parent, folders) == AndThen(first, rest);
    if d !in ValuesOf(first) {
      WalkFoldersValue(s, src, rec, parent, tail, d);
      var k :| 0 <= k < |tail| && d in ValuesOf(Walk(s, src, rec, FullName(tail[k])));
      assert tail[k] == folders[k + 1];
    }
  }

  /** When the walk of a list of folders succeeds, the walk of each folder
      succeeds and its interactions and results are part of the list's. */
  lemma {:induction false} WalkFoldersPart(s: Store, src: Source, rec: ProgressRecord, parent: string, folders: seq<PackageInfo>, k: nat)
    requires Acyclic(s)
    requires forall f :: f in folders ==> s.rank(FullName(f)) < s.rank(parent)
    requires WalkFolders(s, src, rec, parent, folders).result.Some?
    requires k < |folders|
    ensures var w := WalkFolders(s, src, rec, parent, folders);
      var c := Walk(s, src, rec, FullName(folders[k]));
      && c.result.Some?
      && (forall x :: x in c.trace ==> x in w.trace)
      && (forall d :: d in c.result.value ==> d in w.result.value)
    decreases |folders|
  {
    var first := Walk(s, src, rec, FullName(folders[0]));
    var tail := folders[1..];
    assert forall f :: f in tail ==> f in folders;
    var rest := WalkFolders(s, src, rec, parent, tail);
    assert WalkFolders(s, src, rec, parent, folders) == AndThen(first, rest);
    AndThenHolds(first, rest);
    if k > 0 {
      WalkFoldersPart(s, src, rec, parent, tail, k - 1);
      assert tail[k - 1] == folders[k];
    }
  }

  /** `d` carries no project and wraps a package loaded, by its
      `Folder\Name` key, from a package entry of the listing at `d.origin`. */
  ghost predicate FromPackageEntry(s: Store, d: PackageDescriptor)
  {
    && d.project.None?
    && s.list(d.origin).Some?
    && exists e :: e in s.list(d.origin).value && e.flags == PackageFlag && s.load(FullName(e)) == Some(d.package)
  }

  /** Every descriptor a walk returns comes from a package entry of a
      listing the walk made, and carries that listing's path. */
  lemma {:induction false} WalkSound(s: Store, src: Source, rec: ProgressRecord, path: string, d: PackageDescriptor)
    requires Acyclic(s)
    requires d in ValuesOf(Walk(s, src, rec, path))
    ensures FromPackageEntry(s, d)
    ensures Remote(ListEntries(src, d.origin)) in Walk(s, src, rec, path).trace
    decreases s.rank(path)
  {
    var w := Walk(s, src, rec, path);
    var head := [WriteProgress(ProcessingRecord(src, rec, path)), Remote(ListEntries(src, path))];
    var entries := s.list(path).value;
    var folders := FlaggedAs(entries, FolderFlag);
    var loaded := Fold(FlaggedAs(entries, PackageFlag), Loader(s, src, path));
    var first := Run(loaded.result, head + loaded.trace);
    var kids := WalkFolders(s, src, rec, path, folders);
    assert w == AndThen(first, kids);
    AndThenValues(first, kids, d);
    AndThenHolds(first, kids);
    if d in loaded.result.value {
      LoadedSound(s, src, path, d);
      assert first.trace[1] in first.trace;
    } else {
      WalkFoldersValue(s, src, rec, path, folders, d);
      var k :| 0 <= k < |folders| && d in ValuesOf(Walk(s, src, rec, FullName(folders[k])));
      assert folders[k] in folders;
      WalkSound(s, src, rec, FullName(folders[k]), d);
      WalkFoldersPart(s, src, rec, path, folders, k);
    }
  }

  /** A package a listing's loads produced comes from one of its package
      entries and carries its path. */
  lemma LoadedSound(s: Store, src: Source, path: string, d: PackageDescriptor)
    requires s.list(path).Some?
    requires var loaded := Fold(FlaggedAs(s.list(path).value, PackageFlag), Loader(s, src, path));
      loaded.result.Some? && d in loaded.result.value
    ensures FromPackageEntry(s, d) && d.origin == path
  {
    var pk := FlaggedAs(s.list(path).value, PackageFlag);
    FoldSucceeds(pk, Loader(s, src, path));
    FlatMember(pk, Loader(s, src, path), d);
    var e :| e in pk && d in ValuesOf(Loader(s, src, path)(e));
    LoadStepValue(s, src, path, e, d);
    assert e in s.list(path).value && e.flags == PackageFlag;
  }

  lemma LoadStepValue(s: Store, src: Source, path: string, e: PackageInfo, d: PackageDescriptor)
    requires d in ValuesOf(Loader(s, src, path)(e))
    ensures d == PackageDescriptor(s.load(FullName(e)).value, None, path)
    ensures s.load(FullName(e)) == Some(d.package)
  {
  }

  /** `p` is the `Folder\Name` of an entry flagged `flag` in a listing made
      in `t`. */
  ghost predicate EntryOfListing(s: Store, src: Source, t: seq<Effect>, p: string, flag: InfoFlags)
  {
    exists q, e :: Remote(ListEntries(src, q)) in t && s.list(q).Some? && e in s.list(q).value
      && e.flags == flag && FullName(e) == p
  }

  /** Whatever its outcome, a walk lists only its own path and the
      `Folder\Name` of folder entries of listings it made, and loads only
      the `Folder\Name` of package entries of listings it made: entries
      with any other flag are neither walked nor loaded. */
  lemma {:induction false} WalkCallsJustified(s: Store, src: Source, rec: ProgressRecord, path: string, x: Effect)
    requires Acyclic(s)
    requires x in Walk(s, src, rec, path).trace
    ensures var t := Walk(s, src, rec, path).trace;
      x.Remote? && x.call.ListEntries? && x.call.source == src ==>
        x.call.path == path || EntryOfListing(s, src, t, x.call.path, FolderFlag)
    ensures var t := Walk(s, src, rec, path).trace;
      x.Remote? && x.call.LoadPackage? && x.call.source == src ==>
        EntryOfListing(s, src, t, x.call.key, PackageFlag)
    decreases s.rank(path)
  {
    var w := Walk(s, src, rec, path);
    var t := w.trace;
    var head := [WriteProgress(ProcessingRecord(src, rec, path)), Remote(ListEntries(src, path))];
    if s.list(path).Some? && x !in head {
      var entries := s.list(path).value;
      var pk := FlaggedAs(entries, PackageFlag);
      var folders := FlaggedAs(entries, FolderFlag);
      var loaded := Fold(pk, Loader(s, src, path));
      var kids := WalkFolders(s, src, rec, path, folders);
      var rest := if loaded.result.None? then [] else kids.trace;
      assert t == head + loaded.trace + rest;
      assert Remote(ListEntries(src, path)) in t;
      if x in loaded.trace {
        FoldTraceStep(pk, Loader(s, src, path), x);
        var e :| e in pk && x in Loader(s, src, path)(e).trace;
        assert x == Remote(LoadPackage(src, FullName(e)));
      } else {
        assert x in kids.trace;
        WalkFoldersTrace(s, src, rec, path, folders, x);
        var k :| 0 <= k < |folders| && x in Walk(s, src, rec, FullName(folders[k])).trace
          && forall y :: y in Walk(s, src, rec, FullName(folders[k])).trace ==> y in kids.trace;
        var f := folders[k];
        var c := Walk(s, src, rec, FullName(f));
        assert f in folders;
        WalkCallsJustified(s, src, rec, FullName(f), x);
        assert forall y :: y in c.trace ==> y in t;
      }
    }
  }

  /** A walk that succeeds loaded every package entry of its own listing,
      and listed every folder entry of it. */
  lemma OwnListingComplete(s: Store, src: Source, rec: ProgressRecord, path: string)
    requires Acyclic(s)
    requires Walk(s, src, rec, path).result.Some?
    ensures s.list(path).Some?
    ensures forall e :: e in s.list(path).value && e.flags == PackageFlag ==>
      && s.load(FullName(e)).Some?
      && PackageDescriptor(s.load(FullName(e)).value, None, path) in Walk(s, src, rec, path).result.value
    ensures forall e :: e in s.list(path).value && e.flags == FolderFlag ==>
      Remote(ListEntries(src, FullName(e))) in Walk(s, src, rec, path).trace
  {
    var w := Walk(s, src, rec, path);
    var head := [WriteProgress(ProcessingRecord(src, rec, path)), Remote(ListEntries(src, path))];
    var entries := s.list(path).value;
    var pk := FlaggedAs(entries, PackageFlag);
    var folders := FlaggedAs(entries, FolderFlag);
    var loaded := Fold(pk, Loader(s, src, path));
    var kids := WalkFolders(s, src, rec, path, folders);
    assert w == AndThen(Run(loaded.result, head + loaded.trace), kids);
    FoldSucceeds(pk, Loader(s, src, path));
    forall e | e in entries && e.flags == PackageFlag
      ensures s.load(FullName(e)).Some?
      ensures PackageDescriptor(s.load(FullName(e)).value, None, path) in w.result.value
    {
      assert e in pk;
      var i :| 0 <= i < |pk| && pk[i] == e;
      assert Loader(s, src, path)(e).result.Some?;
      FlatContains(pk, Loader(s, src, path), i, PackageDescriptor(s.load(FullName(e)).value, None, path));
    }
    forall e | e in entries && e.flags == FolderFlag
      ensures Remote(ListEntries(src, FullName(e))) in w.trace
    {
      assert e in folders;
      var k :| 0 <= k < |folders| && folders[k] == e;
      WalkShaped(s, src, rec, FullName(e));
      WalkFoldersPart(s, src, rec, path, folders, k);
    }
  }

  /** A walk that succeeds misses nothing: every listing it made succeeded,
      each package entry of it was loaded and is among the results with the
      listing's path, and each folder entry of it was listed in turn. */
  lemma {:induction false} WalkComplete(s: Store, src: Source, rec: ProgressRecord, path: string, p: string)
    requires Acyclic(s)
    requires Walk(s, src, rec, path).result.Some?
    requires Remote(ListEntries(src, p)) in Walk(s, src, rec, path).trace
    ensures s.list(p).Some?
    ensures forall e :: e in s.list(p).value && e.flags == PackageFlag ==>
      && s.load(FullName(e)).Some?
      && PackageDescriptor(s.load(FullName(e)).value, None, p) in Walk(s, src, rec, path).result.value
    ensures forall e :: e in s.list(p).value && e.flags == FolderFlag ==>
      Remote(ListEntries(src, FullName(e))) in Walk(s, src, rec, path).trace
    decreases s.rank(path)
  {
    var w := Walk(s, src, rec, path);
    var head := [WriteProgress(ProcessingRecord(src, rec, path)), Remote(ListEntries(src, path))];
    var entries := s.list(path).value;
    var pk := FlaggedAs(entries, PackageFlag);
    var folders := FlaggedAs(entries, FolderFlag);
    var loaded := Fold(pk, Loader(s, src, path));
    var kids := WalkFolders(s, src, rec, path, folders);
    assert w == AndThen(Run(loaded.result, head + loaded.trace), kids);
    assert w.trace == head + loaded.trace + kids.trace;
    LoadedTraceIsLoads(s, src, path, pk);
    var x := Remote(ListEntries(src, p));
    if x in head {
      assert p == path;
      OwnListingComplete(s, src, rec, path);
    } else if x in loaded.trace {
      assert false;
    } else {
      assert x in kids.trace;
      WalkFoldersTrace(s, src, rec, path, folders, x);
      var k :| 0 <= k < |folders| && x in Walk(s, src, rec, FullName(folders[k])).trace
        && forall y :: y in Walk(s, src, rec, FullName(folders[k])).trace ==> y in kids.trace;
      assert folders[k] in folders;
      WalkFoldersPart(s, src, rec, path, folders, k);
      WalkComplete(s, src, rec, FullName(folders[k]), p);
    }
  }

  /** What the walks of `folders` return, one sequence per folder. */
  function ChildResults(s: Store, src: Source, rec: ProgressRecord, folders: seq<PackageInfo>): seq<seq<PackageDescriptor>>
    requires Acyclic(s)
  {
    seq(|folders|, k requires 0 <= k < |folders| => ValuesOf(Walk(s, src, rec, FullName(folders[k]))))
  }

  /** A walk of folders that succeeds walked every folder successfully and
      returns their results concatenated in folder order. */
  lemma {:induction false} WalkFoldersConcat(s: Store, src: Source, rec: ProgressRecord, parent: string, folders: seq<PackageInfo>)
    requires Acyclic(s)
    requires forall f :: f in folders ==> s.rank(FullName(f)) < s.rank(parent)
    requires WalkFolders(s, src, rec, parent, folders).result.Some?
    ensures forall k :: 0 <= k < |folders| ==> Walk(s, src, rec, FullName(folders[k])).result.Some?
    ensures WalkFolders(s, src, rec, parent, folders).result.value == Concat(ChildResults(s, src, rec, folders))
    decreases |folders|
  {
    if folders == [] {
      assert ChildResults(s, src, rec, folders) == [];
    } else {
      var first := Walk(s, src, rec, FullName(folders[0]));
      var tail := folders[1..];
      assert forall f :: f in tail ==> f in folders;
      assert WalkFolders(s, src, rec, parent, folders) == AndThen(first, WalkFolders(s, src, rec, parent, tail));
      WalkFoldersConcat(s, src, rec, parent, tail);
      ChildResultsCons(s, src, rec, folders);
      ConcatCons(ValuesOf(first), ChildResults(s, src, rec, tail));
    }
  }

  lemma ChildResultsCons(s: Store, src: Source, rec: ProgressRecord, folders: seq<PackageInfo>)
    requires Acyclic(s) && folders != []
    ensures ChildResults(s, src, rec, folders)
      == [ValuesOf(Walk(s, src, rec, FullName(folders[0])))] + ChildResults(s, src, rec, folders[1..])
  {
  }

  /** A walk that succeeds returns the packages of its own listing first,
      in listing order, each loaded by its `Folder\Name` key and wrapped
      with the walk's path; then the results of walking each folder entry,
      in listing order, every one of which succeeded; and nothing else. */
  lemma WalkOwnLevelFirst(s: Store, src: Source, rec: ProgressRecord, path: string)
    requires Acyclic(s)
    requires Walk(s, src, rec, path).result.Some?
    ensures s.list(path).Some?
    ensures var pk := FlaggedAs(s.list(path).value, PackageFlag);
      var ds := Walk(s, src, rec, path).result.value;
      && |pk| <= |ds|
      && forall i :: 0 <= i < |pk| ==>
        && s.load(FullName(pk[i])).Some?
        && ds[i] == PackageDescriptor(s.load(FullName(pk[i])).value, None, path)
    ensures var fs := FlaggedAs(s.list(path).value, FolderFlag);
      var pk := FlaggedAs(s.list(path).value, PackageFlag);
      var ds := Walk(s, src, rec, path).result.value;
      && (forall k :: 0 <= k < |fs| ==> Walk(s, src, rec, FullName(fs[k])).result.Some?)
      && ds[|pk|..] == Concat(ChildResults(s, src, rec, fs))
  {
    var entries := s.list(path).value;
    var pk := FlaggedAs(entries, PackageFlag);
    var folders := FlaggedAs(entries, FolderFlag);
    var own := OwnLevelLoads(s, src, path, pk);
    WalkSplit(s, src, rec, path);
    WalkFoldersConcat(s, src, rec, path, folders);
    var ds := Walk(s, src, rec, path).result.value;
    assert ds == own + WalkFolders(s, src, rec, path, folders).result.value;
    assert ds[|pk|..] == WalkFolders(s, src, rec, path, folders).result.value;
    forall i | 0 <= i < |pk|
      ensures ds[i] == own[i]
    {
    }
  }

  /** A walk that succeeds is its own level's loads followed by the walk of
      its folder entries, both of which succeeded. */
  lemma WalkSplit(s: Store, src: Source, rec: ProgressRecord, path: string)
    requires Acyclic(s)
    requires Walk(s, src, rec, path).result.Some?
    ensures s.list(path).Some?
    ensures var entries := s.list(path).value;
      var loaded := Fold(FlaggedAs(entries, PackageFlag), Loader(s, src, path));
      var kids := WalkFolders(s, src, rec, path, FlaggedAs(entries, FolderFlag));
      && loaded.result.Some? && kids.result.Some?
      && Walk(s, src, rec, path).result.value == loaded.result.value + kids.result.value
  {
    var head := [WriteProgress(ProcessingRecord(src, rec, path)), Remote(ListEntries(src, path))];
    var entries := s.list(path).value;
    var loaded := Fold(FlaggedAs(entries, PackageFlag), Loader(s, src, path));
    var kids := WalkFolders(s, src, rec, path, FlaggedAs(entries, FolderFlag));
    assert Walk(s, src, rec, path) == AndThen(Run(loaded.result, head + loaded.trace), kids);
  }

  /** The loads of a listing's package entries, when all succeed, yield one
      descriptor per entry, in order, wrapping the package loaded by its key
      with the listing's path. */
  lemma OwnLevelLoads(s: Store, src: Source, path: string, pk: seq<PackageInfo>) returns (own: seq<PackageDescriptor>)
    requires Fold(pk, Loader(s, src, path)).result.Some?
    ensures own == Fold(pk, Loader(s, src, path)).result.value
    ensures |own| == |pk|
    ensures forall i :: 0 <= i < |pk| ==>
      && s.load(FullName(pk[i])).Some?
      && own[i] == PackageDescriptor(s.load(FullName(pk[i])).value, None, path)
  {
    own := Fold(pk, Loader(s, src, path)).result.value;
    FoldSucceeds(pk, Loader(s, src, path));
    forall e | e in pk
      ensures |ValuesOf(Loader(s, src, path)(e))| == 1
    {
      assert Loader(s, src, path)(e).result.Some?;
    }
    FlatSingletons(pk, Loader(s, src, path));
    forall i | 0 <= i < |pk|
      ensures s.load(FullName(pk[i])).Some?
      ensures own[i] == PackageDescriptor(s.load(FullName(pk[i])).value, None, path)
    {
      assert pk[i] in pk;
      assert Loader(s, src, path)(pk[i]).result.Some?;
    }
  }

  /** Whether `e` is a call that the store answers by throwing. */
  function Throws(s: Store, src: Source): Effect -> bool
  {
    (e: Effect) =>
      && e.Remote?
      && match e.call
         case ListEntries(_, path) => s.list(path).None?
         case LoadPackage(_, key) => s.load(key).None?
         case _ => false
  }

  /** A walk fails exactly when one of its calls throws, and then that call
      is its last interaction: no listing or load follows it. */
  lemma {:induction false} WalkEndsAtFirstThrow(s: Store, src: Source, rec: ProgressRecord, path: string)
    requires Acyclic(s)
    ensures EndsAtFirst(Walk(s, src, rec, path), Throws(s, src))
    decreases s.rank(path), 1, 0
  {
    var head := [WriteProgress(ProcessingRecord(src, rec, path)), Remote(ListEntries(src, path))];
    if s.list(path).Some? {
      var entries := s.list(path).value;
      var pk := FlaggedAs(entries, PackageFlag);
      var loaded := Fold(pk, Loader(s, src, path));
      FoldEndsAtFirst(pk, Loader(s, src, path), Throws(s, src));
      EndsAtFirstAfter(head, loaded, Throws(s, src));
      if loaded.result.Some? {
        var folders := FlaggedAs(entries, FolderFlag);
        WalkFoldersEndsAtFirstThrow(s, src, rec, path, folders);
        AndThenEndsAtFirst(Run(loaded.result, head + loaded.trace), WalkFolders(s, src, rec, path, folders), Throws(s, src));
      }
    }
  }

  lemma {:induction false} WalkFoldersEndsAtFirstThrow(s: Store, src: Source, rec: ProgressRecord, parent: string, folders: seq<PackageInfo>)
    requires Acyclic(s)
    requires forall f :: f in folders ==> s.rank(FullName(f)) < s.rank(parent)
    ensures EndsAtFirst(WalkFolders(s, src, rec, parent, folders), Throws(s, src))
    decreases s.rank(parent), 0, |folders|
  {
    if folders != [] {
      assert forall f :: f in folders[1..] ==> f in folders;
      WalkEndsAtFirstThrow(s, src, rec, FullName(folders[0]));
      WalkFoldersEndsAtFirstThrow(s, src, rec, parent, folders[1..]);
      AndThenEndsAtFirst(Walk(s, src, rec, FullName(folders[0])), WalkFolders(s, src, rec, parent, folders[1..]), Throws(s, src));
    }
  }

  /** What a walk returns does not depend on the progress record it
      writes. */
  lemma {:induction false} WalkResultAnyRecord(s: Store, src: Source, r1: ProgressRecord, r2: ProgressRecord, path: string)
    requires Acyclic(s)
    ensures Walk(s, src, r1, path).result == Walk(s, src, r2, path).result
    decreases s.rank(path), 1, 0
  {
    if s.list(path).Some? {
      var entries := s.list(path).value;
      var folders := FlaggedAs(entries, FolderFlag);
      WalkFoldersResultAnyRecord(s, src, r1, r2, path, folders);
    }
  }

  lemma {:induction false} WalkFoldersResultAnyRecord(s: Store, src: Source, r1: ProgressRecord, r2: ProgressRecord, parent: string, folders: seq<PackageInfo>)
    requires Acyclic(s)
    requires forall f :: f in folders ==> s.rank(FullName(f)) < s.rank(parent)
    ensures WalkFolders(s, src, r1, parent, folders).result == WalkFolders(s, src, r2, parent, folders).result
    decreases s.rank(parent), 0, |folders|
  {
    if folders != [] {
      assert forall f :: f in folders[1..] ==> f in folders;
      WalkResultAnyRecord(s, src, r1, r2, FullName(folders[0]));
      WalkFoldersResultAnyRecord(s, src, r1, r2, parent, folders[1..]);
    }
  }

  /** A progress write, or a listing or a load in store `src`. */
  function InSource(src: Source): Effect -> bool
  {
    (e: Effect) => e.WriteProgress? || (e.call.ListEntries? && e.call.source == src)
      || (e.call.LoadPackage? && e.call.source == src)
  }

  lemma {:induction false} ShapedInSource(src: Source, rec: ProgressRecord, t: seq<Effect>)
    requires Shaped(src, rec, t)
    ensures AllEffects(t, InSource(src))
    decreases |t|
  {
    if t != [] {
      var n := if t[0].WriteProgress? then 2 else 1;
      ShapedInSource(src, rec, t[n..]);
      assert forall e :: e in t ==> e in t[..n] || e in t[n..];
    }
  }

  /** A walk of store `src` makes calls into that store only. */
  lemma WalkInSource(s: Store, src: Source, rec: ProgressRecord, path: string)
    requires Acyclic(s)
    ensures AllEffects(Walk(s, src, rec, path).trace, InSource(src))
  {
    WalkShaped(s, src, rec, path);
    ShapedInSource(src, rec, Walk(s, src, rec, path).trace);
  }
}
