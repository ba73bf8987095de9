# BIPS root node factory, modelled in Dafny

This project models the root of the BIPS PowerShell drive,
`BipsRootNodeFactory` (`src/CodeOwls.BIPS.Provider/BipsRootNodeFactory.cs`).
Listing the drive's root yields five metadata collections and a "Packages"
node. The package list lives in the drive. The root fills it the first time
it is found empty, from three sources in turn:

- the legacy DTS service, walked folder by folder (`LoadDtsPackages`);
- the msdb database of the SQL server, walked the same way (`LoadSqlPackages`);
- the SSISDB catalog: folders, then projects, then package paths, each
  package taken from the package cache (`LoadCatalogPackages`).

It then sorts the list by package name. All the while it reports progress
through one shared progress record.

Modules, one per part of the source:

- `Effects` is the observable side. A trace (`seq<Effect>`) holds the
  snapshots of the progress record passed to `WriteProgress` and the remote
  calls made. A `Run` pairs a result with its trace; a result of `None` means
  a call threw. `Fold` specifies a loop that stops at its first throwing step.
  `After` is the state in which a trace leaves the shared record.
- `Packages` holds the values: package objects, descriptors, listing entries,
  the `Folder\Name` key and the filter by flag.
- `FolderWalker` holds the DTS and msdb walkers. They are one recursive
  function, `Walk`, parameterised by the source. The store is an oracle,
  `Store`, that answers listings and loads.
- `CatalogWalker` holds the catalog walk. `CatalogRun` is its specification.
  `LoadCatalogPackages` and its loop methods implement it over the oracle
  `Catalog`.
- `NameSort` holds the in-place sort of the package list. The comparer is a
  parameter that obeys the laws of a total preorder.
- `RootNodeFactory` holds:
  - `GetCommonNodeFactories`;
  - `LoadAll`, the specification of a load;
  - the classes `BipsDrive` (the shared package list) and
    `BipsRootNodeFactory`, whose `GetNodeChildren` lists the root. When
    the drive's list is empty, its guarded block (`LoadPackages`) loads
    into the list and sorts it in place.

Calls into the SSIS runtime, SSISDB and the package cache are oracles.
These are function-valued fields, returning `None` where the call throws.
Progress writes are recorded in the returned trace.

Points where the model states what the code does, not what a reader might expect:

- A load that throws part-way leaves the packages found so far in the
  drive's list, unsorted. The next listing then finds the list non-empty and does not load
  again.
- The list sort is not stable, so no order among packages with equal
  names is promised.
- Percent complete is never set during the DTS phase, so that phase's
  records carry the record's initial value, -1.
- Each walker call writes the shared record once, before it lists. The
  msdb walk overwrites the current operation set by the DTS walk, and the
  catalog walk overwrites it again.

## Model

| member | source | states |
|---|---|---|
| RootNodeFactory.GetCommonNodeFactories | src/CodeOwls.BIPS.Provider/BipsRootNodeFactory.cs:70-88 | Appends exactly five nodes, named ConnectionTypes, DataTypes, DbProviders, LogProviders and TaskTypes in that order, after the nodes already present, which are left unchanged. |
| RootNodeFactory.BipsRootNodeFactory.GetNodeChildren | src/CodeOwls.BIPS.Provider/BipsRootNodeFactory.cs:30-68 | If the drive's list is non-empty, it makes no call, writes nothing and leaves the list as it is. Otherwise it performs exactly the interactions of `LoadAll`. After a completed load the list is sorted by name and is a permutation of what the load found. After a failed load the list holds what was found before the throw, unsorted. It returns children exactly when the list was non-empty or the load completed: six nodes, the five metadata collections followed by "Packages" holding the drive's list. |
| RootNodeFactory.BipsRootNodeFactory.constructor | src/CodeOwls.BIPS.Provider/BipsRootNodeFactory.cs:24-28 | The factory keeps the drive it was given. |
| RootNodeFactory.BipsRootNodeFactory.LoadPackages | src/CodeOwls.BIPS.Provider/BipsRootNodeFactory.cs:39-64 | Called on the empty list, it performs exactly the interactions of `LoadAll` and reports whether the load completed. After a completed load the list is sorted by name and is a permutation of what the three sources returned. After a throw the list holds what the earlier sources added, unsorted. |
| RootNodeFactory.ListRootTwice | src/CodeOwls.BIPS.Provider/BipsRootNodeFactory.cs:37-38 | Loading is guarded by emptiness, not by a flag. On a fresh drive, a second listing repeats the whole load exactly when the first found no package at all. Otherwise it makes no call, even when the first load threw part-way. |
| RootNodeFactory.LoadAll | src/CodeOwls.BIPS.Provider/BipsRootNodeFactory.cs:39-64 | The guarded load as a value. It writes the initial record, walks DTS from the empty path, and then hands over to `LoadFromSql`. A throwing DTS walk ends the load with nothing found and not completed. It is a definition; `LoadProgress`, `LoadOutcome` and the lemmas below state its properties. |
| RootNodeFactory.LoadFromSql | src/CodeOwls.BIPS.Provider/BipsRootNodeFactory.cs:45-51 | The msdb stage: set 33 and "Loading SQL Packages" on the record the DTS walk left, write it, and walk msdb from the empty path. A throw ends the load, keeping the DTS results. Otherwise `LoadFromCatalog` follows. It is a definition. |
| RootNodeFactory.LoadFromCatalog | src/CodeOwls.BIPS.Provider/BipsRootNodeFactory.cs:52-63 | The catalog stage: set 66 and "Loading SSISDB Catalog Packages", write the record, and walk the catalog. A throw ends the load, keeping what was found. Otherwise it appends the catalog's packages and writes the "Done!" record at 100, `Completed`, built from the record the catalog walk left. It is a definition. |
| RootNodeFactory.LoadProgress | src/CodeOwls.BIPS.Provider/BipsRootNodeFactory.cs:40-63 | The first record written is the initial one: "Loading DTS Packages" at -1. Every record belongs to activity 1, "Loading Packages", and carries one of the checkpoints: DTS at -1, SQL at 33, SSISDB at 66, or "Done!" at 100 `Completed`. Percent complete never goes down. Only the last record of a completed load is `Completed`. A completed load passed every checkpoint. |
| RootNodeFactory.LogExtends | src/CodeOwls.BIPS.Provider/BipsRootNodeFactory.cs:45-54 | Writing the next checkpoint, then records that differ from it only in the current operation, extends a progress log by one checkpoint. |
| RootNodeFactory.LoadOutcome | src/CodeOwls.BIPS.Provider/BipsRootNodeFactory.cs:42-57 | Each source is read only once the previous one returned. The load completes exactly when all three return. What it found is what they returned, in DTS, msdb, catalog order, up to the first source that threw. |
| RootNodeFactory.LoadFindsEveryPackage | src/CodeOwls.BIPS.Provider/BipsRootNodeFactory.cs:42-57 | A completed load found the DTS walk's packages, then the msdb walk's, then every package of the catalog. |
| RootNodeFactory.LoadSound | src/CodeOwls.BIPS.Provider/BipsRootNodeFactory.cs:42-57 | Every package a load found, whatever its outcome, was loaded from a package entry of a DTS or msdb listing, or is a package of the catalog. |
| RootNodeFactory.LoadEndsAtFirstThrow | src/CodeOwls.BIPS.Provider/BipsRootNodeFactory.cs:40-63 | A load fails to complete exactly when one of its calls throws, and that call is then its last interaction. |
| CatalogWalker.CatalogRun | src/CodeOwls.BIPS.Provider/BipsRootNodeFactory.cs:90-114 | The catalog walk as a value. It writes the "Loading folders ..." record, reads the folders, and fetches every folder's project list. Then, for each project in order, it writes its record, lists its package paths, and takes each path's package from the cache. A throw ends it. It is a definition; the lemmas below state its properties, and `LoadCatalogPackages` is proved equal to it. |
| CatalogWalker.LoadCatalogPackages | src/CodeOwls.BIPS.Provider/BipsRootNodeFactory.cs:90-114 | The loop-based walk returns exactly the result and the interactions of `CatalogRun`. It leaves the shared record as the last write of its trace left it. |
| CatalogWalker.FetchProjectLists | src/CodeOwls.BIPS.Provider/BipsRootNodeFactory.cs:95-96 | Fetches each folder's project list in folder order, stopping at the first fetch that throws, as `Fold` over the folders specifies. |
| CatalogWalker.WalkProjectLists | src/CodeOwls.BIPS.Provider/BipsRootNodeFactory.cs:98-111 | Walks the project lists in order, as `Fold` over the lists specifies, and tracks the shared record. |
| CatalogWalker.WalkProjects | src/CodeOwls.BIPS.Provider/BipsRootNodeFactory.cs:100-110 | Walks one list's projects in order, as `Fold` over the projects specifies, and tracks the shared record. |
| CatalogWalker.LoadProjectPackages | src/CodeOwls.BIPS.Provider/BipsRootNodeFactory.cs:102-109 | Reports the project, lists its package paths and takes each package from the cache in path order, as `ProjectStep` specifies. |
| CatalogWalker.CatalogFindsEveryPackage | src/CodeOwls.BIPS.Provider/BipsRootNodeFactory.cs:98-113 | A catalog walk that succeeds returns one descriptor per package path, ordered by folder, then project, then path, each carrying its project and its path and the package the cache gave for that path. |
| CatalogWalker.CatalogProgress | src/CodeOwls.BIPS.Provider/BipsRootNodeFactory.cs:92-103 | A successful catalog walk writes one "Loading folders ..." record, then one "Loading packages in project ..." record per project, in project order, and nothing else. |
| CatalogWalker.CatalogListsProjectsFirst | src/CodeOwls.BIPS.Provider/BipsRootNodeFactory.cs:92-100 | When the folders can be read and every project-list fetch succeeds, the walk reports, reads the folders, and fetches every folder's project list in folder order. Only then does it touch any project, and after that it never fetches a project list again. |
| CatalogWalker.CatalogEndsAtFirstThrow | src/CodeOwls.BIPS.Provider/BipsRootNodeFactory.cs:95-108 | The catalog walk fails exactly when one of its calls throws, and nothing is called after that one. |
| CatalogWalker.CatalogKeeps | src/CodeOwls.BIPS.Provider/BipsRootNodeFactory.cs:92-103 | Every record the catalog walk writes is the record it was given, with only the current operation replaced. |
| CatalogWalker.CatalogResultAnyRecord | src/CodeOwls.BIPS.Provider/BipsRootNodeFactory.cs:90-114 | What the catalog walk returns does not depend on the progress record it writes. |
| CatalogWalker.CatalogInCatalog | src/CodeOwls.BIPS.Provider/BipsRootNodeFactory.cs:95-107 | The catalog walk calls only the catalog and the package cache. |
| FolderWalker.Walk | src/CodeOwls.BIPS.Provider/BipsRootNodeFactory.cs:116-175 | The walk of one path of the DTS service or msdb. It writes the shared record naming the path, lists the path, and loads each `Package` entry by its `Folder\Name` key in listing order. Then it walks each `Folder` entry at `Folder\Name` in listing order, and returns this level's packages followed by the subfolders'. A throwing listing or load ends it. It is a definition; the lemmas below state its properties. |
| FolderWalker.WalkFolders | src/CodeOwls.BIPS.Provider/BipsRootNodeFactory.cs:134-141 | Walks the folder entries one after the other and concatenates their results. A throwing walk ends it. It is a definition; `WalkFoldersConcat` states its result. |
| FolderWalker.WalkShaped | src/CodeOwls.BIPS.Provider/BipsRootNodeFactory.cs:116-143 | A walk first writes the record naming its path, then lists that path. Its whole trace is a series of visits, each "one write, the listing it announces, some loads". So there is exactly one progress write per listing, just before it, whatever the outcome. |
| FolderWalker.ShapedWrites | src/CodeOwls.BIPS.Provider/BipsRootNodeFactory.cs:118-119 | The records a walk writes are, one for one and in order, "Processing ... path P..." for the paths it lists. |
| FolderWalker.ShapedKeeps | src/CodeOwls.BIPS.Provider/BipsRootNodeFactory.cs:148-149 | Every record a walk writes is the record it was given, with only the current operation replaced. |
| FolderWalker.WalkSound | src/CodeOwls.BIPS.Provider/BipsRootNodeFactory.cs:121-131 | Every descriptor a walk returns wraps a package that was loaded by the `Folder\Name` key of a `Package`-flagged entry of a listing the walk made. It has no project, and it carries that listing's path. |
| FolderWalker.WalkComplete | src/CodeOwls.BIPS.Provider/BipsRootNodeFactory.cs:151-172 | In a successful walk, every listing succeeded. Every `Package` entry of it was loaded and is among the results with the listing's path. Every `Folder` entry of it was listed in turn at `Folder\Name`. |
| FolderWalker.WalkCallsJustified | src/CodeOwls.BIPS.Provider/BipsRootNodeFactory.cs:123-137 | A walk lists only its own path and the `Folder\Name` of `Folder`-flagged entries it listed. It loads only the `Folder\Name` of `Package`-flagged entries. Entries with other flags are dropped. |
| FolderWalker.WalkOwnLevelFirst | src/CodeOwls.BIPS.Provider/BipsRootNodeFactory.cs:129-143 | A successful walk returns its own level's packages first, one per `Package` entry in listing order, each loaded by its key and wrapped with the walk's path. Every `Folder` entry's walk succeeded, and what follows is exactly their results concatenated in listing order, with nothing added or dropped. |
| FolderWalker.WalkFoldersConcat | src/CodeOwls.BIPS.Provider/BipsRootNodeFactory.cs:134-141 | A successful walk of folder entries walked each one successfully and returns their results concatenated in folder order. |
| FolderWalker.WalkEndsAtFirstThrow | src/CodeOwls.BIPS.Provider/BipsRootNodeFactory.cs:121-141 | A walk fails exactly when one of its listings or loads throws, and nothing is called after that one. |
| FolderWalker.WalkResultAnyRecord | src/CodeOwls.BIPS.Provider/BipsRootNodeFactory.cs:146-175 | What a walk returns does not depend on the progress record it writes. |
| FolderWalker.WalkInSource | src/CodeOwls.BIPS.Provider/BipsRootNodeFactory.cs:121-130 | A DTS walk calls only the DTS service, and an msdb walk only msdb. |
| Packages.FlaggedAs | src/CodeOwls.BIPS.Provider/BipsRootNodeFactory.cs:123-128 | An entry is kept exactly when it is in the listing and carries the given flag. The result is no longer than the listing. |
| Packages.FlaggedAsCounts | src/CodeOwls.BIPS.Provider/BipsRootNodeFactory.cs:123-128 | No flagged entry is dropped or duplicated: each entry occurs in the result as often as in the listing when it carries the flag, and never otherwise. |
| Packages.FlaggedAsAppend | src/CodeOwls.BIPS.Provider/BipsRootNodeFactory.cs:123-128 | Filtering keeps listing order: filtering a listing made of two parts gives the first part's kept entries, then the second's. |
| Packages.FlaggedAsSingle | src/CodeOwls.BIPS.Provider/BipsRootNodeFactory.cs:123-128 | A single entry is kept exactly when it carries the flag. |
| NameSort.SortByName | src/CodeOwls.BIPS.Provider/BipsRootNodeFactory.cs:58 | The sorted list is ordered by package name under the comparer and is a permutation of the input. |
| NameSort.InsertByName | src/CodeOwls.BIPS.Provider/BipsRootNodeFactory.cs:58 | Inserting into a sorted list keeps it sorted and adds exactly the one descriptor. |

## Left out

- The SSIS runtime calls (`GetDtsServerPackageInfos`, `LoadFromDtsServer`, `GetPackageInfos`, `LoadFromSqlServer`), `SsisDbHelper`, `PackageProxy.GetLocalPackageFilePathsForProject` and `PackageCache.GetPackage` are foreign, network-backed calls. They are oracles here. A thrown exception is `None`, with no exception type. The cache's memoisation is not modelled.
- The server name (the drive root) passed to the walkers is not modelled. The stores answer for one fixed server.
- GetCommonNodeFactories: keeps only the names and the order of the five metadata nodes. Their contents, the node-factory classes, and a throw while enumerating `Application`'s collections are not modelled.
- RootNodeFactory.BipsRootNodeFactory.GetNodeChildren: the "Packages" node holds the list as a value, so the aliasing between that node and the drive's list is not captured. The drive's other state and its initialisation are not modelled.
- NameSort.SortByName: `List.Sort` is modelled by an insertion sort. Only "sorted under the comparer and a permutation" is promised, which is all the runtime promises. The collation of `StringComparer.InvariantCultureIgnoreCase` is a parameter with the laws of a total preorder.
- CatalogWalker.LoadCatalogPackages: each level of the nested loops is its own method (`FetchProjectLists`, `WalkProjectLists`, `WalkProjects`, `LoadProjectPackages`). The order of calls and writes is the source's.
- The PowerShell `IContext` and the rendering of progress records are reduced to the trace of record snapshots.
- Cyclic remote folder structures: the walkers have no visited set and would not terminate. The stores must be acyclic (`Acyclic`: each folder entry leads to a path of smaller rank).
- LINQ deferred enumeration: each listing is one stable snapshot.
- `GetNodeValue`, `Name` and the `Drive` and `Application` accessors are trivial accessors.
- Concurrent use of the drive is not modelled.
