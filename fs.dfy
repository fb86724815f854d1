/** The operating system as the walk sees it: lstat results, file modes and a
    static directory tree that ReadDir lists. */
module Fs {
  import opened Wrappers

  type uint32 = x: int | 0 <= x < 0x1_0000_0000

  /** The owner reported by syscall.Stat_t. */
  datatype Owner = Owner(uid: uint32, gid: uint32)

  /** os.FileInfo as returned by os.Lstat. `modTime` is in nanoseconds since
      the Unix epoch and `modYear` is the calendar year of that instant as
      time.Time.Year reports it; `owner` is None when Sys() is not a Stat_t. */
  datatype OsFileInfo = OsFileInfo(size: int, mode: bv32, modTime: int, modYear: int, owner: Option<Owner>)

  /** The (info, err) pair of os.Lstat. */
  datatype StatResult = StatOk(info: OsFileInfo) | StatErr

  /** One inode of the tree: what lstat says about it and, for a directory,
      what ReadDir lists (os.ReadDir lists in name order, each name once). */
  datatype Node = Node(stat: StatResult, kind: Kind)
  datatype Kind = Directory(listing: Listing) | NonDirectory
  datatype Listing = Listed(entries: seq<Entry>) | ListFailed
  datatype Entry = Entry(name: string, node: Node)

  // os.FileMode bits (io/fs).
  const ModeDir: bv32 := 0x8000_0000
  const ModeSymlink: bv32 := 0x0800_0000
  const ModeDevice: bv32 := 0x0400_0000
  const ModeNamedPipe: bv32 := 0x0200_0000
  const ModeSocket: bv32 := 0x0100_0000
  const ModeCharDevice: bv32 := 0x0020_0000
  const ModeIrregular: bv32 := 0x0008_0000
  const ModeType: bv32 := ModeDir | ModeSymlink | ModeNamedPipe | ModeSocket | ModeDevice | ModeCharDevice | ModeIrregular
  const ModePerm: bv32 := 0x1FF

  /** FileMode.IsDir. */
  predicate ModeIsDir(m: bv32) { m & ModeDir != 0 }

  /** FileMode.IsRegular: no type bit is set. */
  predicate ModeIsRegular(m: bv32) { m & ModeType == 0 }

  /** FileMode.Perm: the nine permission bits. */
  function Perm(m: bv32): (p: bv32)
    ensures p <= 0x1FF
  {
    m & ModePerm
  }

  /** DirEntry.IsDir of a listed entry. */
  predicate IsDirEntry(e: Entry) { e.node.kind.Directory? }

  /** What os.ReadDir returns for an inode: a non-directory cannot be listed. */
  function ListingOf(n: Node): Listing
  {
    if n.kind.Directory? then n.kind.listing else ListFailed
  }

  /** The first listed entry with the given name. */
  function FindEntry(es: seq<Entry>, name: string): (r: Option<Entry>)
    ensures r.Some? ==> r.value in es && r.value.name == name
    ensures r.None? ==> forall k :: 0 <= k < |es| ==> es[k].name != name
  {
    if es == [] then None
    else if es[0].name == name then Some(es[0])
    else FindEntry(es[1..], name)
  }

  /** The inode reached from the root by following the given names. */
  function Lookup(fs: Node, elems: seq<string>): Option<Node>
    decreases |elems|
  {
    if elems == [] then Some(fs)
    else
      match Lookup(fs, elems[..|elems| - 1])
      case None => None
      case Some(n) =>
        match ListingOf(n)
        case ListFailed => None
        case Listed(es) =>
          match FindEntry(es, elems[|elems| - 1])
          case None => None
          case Some(e) => Some(e.node)
  }

  ghost predicate UniqueNames(es: seq<Entry>)
  {
    forall i, j :: 0 <= i < j < |es| ==> es[i].name != es[j].name
  }

  /** A directory tree as an operating system lists it: in every listing the
      names are distinct, non-empty and free of '/'. */
  ghost predicate ValidTree(n: Node)
    decreases n
  {
    match n.kind
    case NonDirectory => true
    case Directory(l) =>
      match l
      case ListFailed => true
      case Listed(es) =>
        && UniqueNames(es)
        && (forall k :: 0 <= k < |es| ==> es[k].name != "" && '/' !in es[k].name)
        && (forall k :: 0 <= k < |es| ==> ValidTree(es[k].node))
  }

  /** With distinct names, looking a name up finds the entry that carries it. */
  lemma {:induction false} FindUnique(es: seq<Entry>, k: nat)
    requires UniqueNames(es) && k < |es|
    ensures FindEntry(es, es[k].name) == Some(es[k])
  {
    if k > 0 {
      assert es[0].name != es[k].name;
      FindUnique(es[1..], k - 1);
    }
  }

  /** One more name after a successful lookup selects that entry's inode. */
  lemma LookupChild(fs: Node, elems: seq<string>, n: Node, k: nat)
    requires Lookup(fs, elems) == Some(n)
    requires ListingOf(n).Listed? && k < |ListingOf(n).entries|
    requires UniqueNames(ListingOf(n).entries)
    ensures Lookup(fs, elems + [ListingOf(n).entries[k].name]) == Some(ListingOf(n).entries[k].node)
  {
    var es := ListingOf(n).entries;
    assert (elems + [es[k].name])[..|elems|] == elems;
    FindUnique(es, k);
  }

  /** Every inode of a valid tree roots a valid tree. */
  lemma {:induction false} LookupValid(fs: Node, elems: seq<string>)
    requires ValidTree(fs)
    ensures Lookup(fs, elems).Some? ==> ValidTree(Lookup(fs, elems).value)
    decreases |elems|
  {
    if elems != [] {
      LookupValid(fs, elems[..|elems| - 1]);
    }
  }
}
