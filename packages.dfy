/** The values the walkers pass around: package objects, the descriptors
    that wrap them, and the entries of a remote folder listing. */
module Packages {
  import opened Effects

  /** A package object as the SSIS runtime hands it out. The core reads only
      its name; `id` stands for the identity of the runtime object. */
  datatype Package = Package(name: string, id: nat)

  /** A project of the SSISDB catalog: the name shown in progress messages
      and the path its packages are looked up by. */
  datatype Project = Project(name: string, path: string)

  /** One discovered package with the context it was found in: the path of
      the listing (or the package path, for the catalog) and, for catalog
      packages only, the project. */
  datatype PackageDescriptor = PackageDescriptor(package: Package, project: Option<Project>, origin: string)

  /** The name the package list is sorted by. */
  function NameOf(d: PackageDescriptor): string
  {
    d.package.name
  }

  /** The flags of a listing entry: a folder, a package, or any other value. */
  datatype InfoFlags = FolderFlag | PackageFlag | OtherFlags(bits: int)

  /** One entry of a folder listing of the DTS service or of msdb. */
  datatype PackageInfo = PackageInfo(flags: InfoFlags, folder: string, name: string)

  /** `Folder\Name`: the key a package entry is loaded by and the path a
      folder entry is walked at. */
  function FullName(info: PackageInfo): string
  {
    info.folder + "\\" + info.name
  }

  /** The entries of a listing that carry exactly `flag`, in listing order. */
  function FlaggedAs(infos: seq<PackageInfo>, flag: InfoFlags): (r: seq<PackageInfo>)
    ensures forall e :: e in r <==> e in infos && e.flags == flag
    ensures |r| <= |infos|
  {
    if infos == [] then []
    else (if infos[0].flags == flag then [infos[0]] else []) + FlaggedAs(infos[1..], flag)
  }

  /** Filtering drops no flagged entry and duplicates none: each entry is
      kept as often as the listing holds it when it carries the flag, and
      never otherwise. */
  lemma {:induction false} FlaggedAsCounts(infos: seq<PackageInfo>, flag: InfoFlags)
    ensures forall e :: multiset(FlaggedAs(infos, flag))[e] == if e.flags == flag then multiset(infos)[e] else 0
    decreases |infos|
  {
    if infos != [] {
      FlaggedAsCounts(infos[1..], flag);
      assert infos == [infos[0]] + infos[1..];
    }
  }

  /** Filtering keeps listing order: the entries kept from a listing made of
      two parts are those kept from the first part, then those kept from the
      second. */
  lemma {:induction false} FlaggedAsAppend(a: seq<PackageInfo>, b: seq<PackageInfo>, flag: InfoFlags)
    ensures FlaggedAs(a + b, flag) == FlaggedAs(a, flag) + FlaggedAs(b, flag)
    decreases |a|
  {
    if a == [] {
      assert a + b == b;
    } else {
      assert (a + b)[0] == a[0] && (a + b)[1..] == a[1..] + b;
      FlaggedAsAppend(a[1..], b, flag);
    }
  }

  /** A single entry is kept exactly when it carries the flag. */
  lemma FlaggedAsSingle(e: PackageInfo, flag: InfoFlags)
    ensures FlaggedAs([e], flag) == if e.flags == flag then [e] else []
  {
    assert [e][1..] == [];
  }
}
