/** The in-place sort of the drive's package list by package name. The
    comparer is a parameter: the case-insensitive culture-invariant string
    comparison of the runtime, of which only the laws of a total preorder
    are assumed. */
module NameSort {
  import opened Packages

  /** `le` orders names totally and transitively; names it relates both
      ways (the same name in different case) are ties. */
  ghost predicate TotalPreorder(le: (string, string) -> bool)
  {
    && (forall a, b :: le(a, b) || le(b, a))
    && (forall a, b, c :: le(a, b) && le(b, c) ==> le(a, c))
  }

  /** Every descriptor's name is ordered before the names of those after
      it. */
  ghost predicate Sorted(le: (string, string) -> bool, s: seq<PackageDescriptor>)
  {
    forall i, j :: 0 <= i < j < |s| ==> le(NameOf(s[i]), NameOf(s[j]))
  }

  /** Insert `d` into the sorted `s`, after every element ordered before it. */
  method InsertByName(s: seq<PackageDescriptor>, d: PackageDescriptor, le: (string, string) -> bool)
    returns (r: seq<PackageDescriptor>)
    requires TotalPreorder(le)
    requires Sorted(le, s)
    ensures Sorted(le, r)
    ensures multiset(r) == multiset(s) + multiset{d}
  {
    var j := |s|;
    while j > 0 && !le(NameOf(s[j - 1]), NameOf(d))
      invariant 0 <= j <= |s|
      invariant forall k :: j <= k < |s| ==> le(NameOf(d), NameOf(s[k]))
    {
      j := j - 1;
    }
    r := s[..j] + [d] + s[j..];
    InsertedSorted(s, d, j, le);
    InsertedPermutes(s, d, j);
  }

  /** Placing `d` anywhere in `s` adds exactly `d`. */
  lemma InsertedPermutes(s: seq<PackageDescriptor>, d: PackageDescriptor, j: nat)
    requires j <= |s|
    ensures multiset(s[..j] + [d] + s[j..]) == multiset(s) + multiset{d}
  {
    assert s == s[..j] + s[j..];
  }

  /** `d` placed after every element it does not precede and before the
      rest keeps a sorted sequence sorted. */
  lemma InsertedSorted(s: seq<PackageDescriptor>, d: PackageDescriptor, j: nat, le: (string, string) -> bool)
    requires TotalPreorder(le)
    requires Sorted(le, s)
    requires j <= |s|
    requires j > 0 ==> le(NameOf(s[j - 1]), NameOf(d))
    requires forall k :: j <= k < |s| ==> le(NameOf(d), NameOf(s[k]))
    ensures Sorted(le, s[..j] + [d] + s[j..])
  {
    var r := s[..j] + [d] + s[j..];
    forall a, b | 0 <= a < b < |r|
      ensures le(NameOf(r[a]), NameOf(r[b]))
    {
      if b < j {
        assert r[a] == s[a] && r[b] == s[b];
      } else if b == j {
        assert r[a] == s[a];
        if a < j - 1 {
          assert le(NameOf(s[a]), NameOf(s[j - 1]));
        }
      } else if a == j {
        assert r[b] == s[b - 1];
      } else if a < j {
        assert r[a] == s[a] && r[b] == s[b - 1];
      } else {
        assert r[a] == s[a - 1] && r[b] == s[b - 1];
      }
    }
  }

  /** Sort the package list by name. No order among ties is promised: the
      runtime's list sort is not stable. */
  method SortByName(s: seq<PackageDescriptor>, le: (string, string) -> bool)
    returns (r: seq<PackageDescriptor>)
    requires TotalPreorder(le)
    ensures Sorted(le, r)
    ensures multiset(r) == multiset(s)
  {
    r := [];
    var i := 0;
    while i < |s|
      invariant 0 <= i <= |s|
      invariant Sorted(le, r)
      invariant multiset(r) == multiset(s[..i])
    {
      assert s[..i + 1] == s[..i] + [s[i]];
      r := InsertByName(r, s[i], le);
      i := i + 1;
    }
    assert s[..i] == s;
  }
}
