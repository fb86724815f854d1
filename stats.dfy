/** StatsWalker (pkg/stat/walker.go): walks each path with cwalk, records
    every entry its OnLstat callback sees that passes the filters, and folds
    the per-type totals into the summary. The results are fields that the
    record step updates in place; every bucket is kept equal to the tally of
    the recorded entries it covers. */
module Stats {
  import opened Wrappers
  import opened Text
  import opened Branches
  import opened Fs
  import opened WalkSpec
  import opened Cwalk
  import opened StatFilters

  /** The counters shared by SummaryStat, YearStat and UIDStat. */
  datatype Tally = Tally(
    totalSize: int, totalInodes: int,
    files: int, dirs: int, symlinks: int, others: int,
    filesSize: int, dirsSize: int, symlinksSize: int, othersSize: int)

  const ZeroTally: Tally := Tally(0, 0, 0, 0, 0, 0, 0, 0, 0, 0)

  /** The totals are the sums of the per-type counts and sizes. */
  predicate Consistent(t: Tally)
  {
    && t.totalInodes == t.files + t.dirs + t.symlinks + t.others
    && t.totalSize == t.filesSize + t.dirsSize + t.symlinksSize + t.othersSize
  }

  datatype YearStat = YearStat(year: int, tally: Tally)
  datatype UIDStat = UIDStat(uid: uint32, username: string, tally: Tally)

  /** The fileType strings the result maps are keyed by: "file", "dir",
      "symlink" and "other", each a value of its own. */
  datatype InodeType = File | Dir | Symlink | Other

  /** The key text of a type. */
  function Name(k: InodeType): (s: string)
    ensures s in {"file", "dir", "symlink", "other"}
  {
    match k
    case File => "file"
    case Dir => "dir"
    case Symlink => "symlink"
    case Other => "other"
  }

  /** Distinct types have distinct key texts. */
  lemma NamesDistinct(k: InodeType, l: InodeType)
    ensures Name(k) == Name(l) <==> k == l
  {
    if k != l {
      assert Name(k)[0] != Name(l)[0] || |Name(k)| != |Name(l)|;
    }
  }

  /** The per-type count and size of a tally. */
  function CountOf(t: Tally, k: InodeType): int
  {
    match k
    case File => t.files
    case Dir => t.dirs
    case Symlink => t.symlinks
    case Other => t.others
  }

  function SizeOf(t: Tally, k: InodeType): int
  {
    match k
    case File => t.filesSize
    case Dir => t.dirsSize
    case Symlink => t.symlinksSize
    case Other => t.othersSize
  }

  /** One entry added to a bucket: both totals, then the count and size of
      the entry's type (the switch on fileType). */
  function AddEntry(t: Tally, k: InodeType, size: int): Tally
  {
    var t := t.(totalInodes := t.totalInodes + 1, totalSize := t.totalSize + size);
    match k
    case File => t.(files := t.files + 1, filesSize := t.filesSize + size)
    case Dir => t.(dirs := t.dirs + 1, dirsSize := t.dirsSize + size)
    case Symlink => t.(symlinks := t.symlinks + 1, symlinksSize := t.symlinksSize + size)
    case Other => t.(others := t.others + 1, othersSize := t.othersSize + size)
  }

  /** Adding an entry raises the inode total and exactly the count of its
      type by one, the size total and the size of its type by its size; the
      totals stay the sums of the per-type figures. */
  lemma AddEntryCounts(t: Tally, k: InodeType, size: int)
    ensures var r := AddEntry(t, k, size);
      && r.totalInodes == t.totalInodes + 1 && r.totalSize == t.totalSize + size
      && CountOf(r, k) == CountOf(t, k) + 1 && SizeOf(r, k) == SizeOf(t, k) + size
      && (forall o :: o != k ==> CountOf(r, o) == CountOf(t, o) && SizeOf(r, o) == SizeOf(t, o))
      && (Consistent(t) ==> Consistent(r))
  {
  }

  /** The fileType the record step computes: "dir", else "symlink", else
      "file"; it never yields "other". */
  function RecordType(fi: FileInfo): (k: InodeType)
    ensures k in RecordTypes
  {
    if fi.isDir then Dir else if fi.isSymlink then Symlink else File
  }

  const RecordTypes: set<InodeType> := {File, Dir, Symlink}

  /** The record step and getFileType agree except on entries that are
      neither directory, symlink nor regular file: getFileType calls those
      "other" and the record step counts them as files. */
  lemma RecordTypeVersusGetFileType(fi: FileInfo)
    ensures GetFileType(fi) != "other" ==> Name(RecordType(fi)) == GetFileType(fi)
    ensures GetFileType(fi) == "other" ==> RecordType(fi) == File
  {
  }

  /** The FileInfo the OnLstat closure builds from a successful lstat: the
      directory flag from the mode, the symlink flag from ModeSymlink, and
      UID/GID from syscall.Stat_t or zero when Sys() is not one. */
  function FileInfoOf(relPath: string, info: OsFileInfo): (fi: FileInfo)
    ensures fi.path == relPath && fi.size == info.size && fi.mode == info.mode
    ensures fi.isDir <==> ModeIsDir(info.mode)
    ensures fi.isSymlink <==> info.mode & ModeSymlink != 0
    ensures info.owner.None? ==> fi.uid == 0 && fi.gid == 0
    ensures info.owner.Some? ==> fi.uid == info.owner.value.uid && fi.gid == info.owner.value.gid
  {
    FileInfo(relPath, info.size, info.mode, info.modTime, info.modYear,
             ModeIsDir(info.mode), info.mode & ModeSymlink != 0,
             if info.owner.Some? then info.owner.value.uid else 0,
             if info.owner.Some? then info.owner.value.gid else 0)
  }

  // ---------------------------------------------------------------------------
  // The filters pointer
  // ---------------------------------------------------------------------------

  /** Matches reached through a possibly nil *Filters, as written: Matches
      reads f.Types first, which dereferences a nil pointer and panics (None). */
  function MatchesAsWritten(f: Option<Filters>, fi: FileInfo, now: int): (r: Option<bool>)
    ensures f.Some? ==> r == Some(Matches(f.value, fi, now))
  {
    match f
    case None => None
    case Some(g) => Some(Matches(g, fi, now))
  }

  /** The nil-filters call panics for every entry. */
  lemma NilFiltersPanic(fi: FileInfo, now: int)
    ensures MatchesAsWritten(None, fi, now).None?
  {
  }

  /** What NewStatsWalker documents: with nil filters every entry is included. */
  function MatchesOrAll(f: Option<Filters>, fi: FileInfo, now: int): (r: bool)
    ensures f.Some? ==> MatchesAsWritten(f, fi, now) == Some(r)
  {
    match f
    case None => true
    case Some(g) => Matches(g, fi, now)
  }

  /** Nil filters behave exactly like the zero Filters. */
  lemma NilFiltersAreNoFilters(fi: FileInfo, now: int)
    ensures MatchesOrAll(None, fi, now) == MatchesOrAll(Some(NoFilters), fi, now)
  {
    NoFiltersMatchEverything(fi, now);
  }

  // ---------------------------------------------------------------------------
  // Tallies of recorded entries
  // ---------------------------------------------------------------------------

  /** Which recorded entries a bucket covers. */
  datatype Scope = Everything | InYear(year: int) | OfOwner(uid: uint32)

  predicate InScope(k: Scope, fi: FileInfo)
  {
    match k
    case Everything => true
    case InYear(y) => fi.year == y
    case OfOwner(u) => fi.uid == u
  }

  /** The tally of the recorded entries in scope, in recording order. */
  function TallyOf(infos: seq<FileInfo>, k: Scope): Tally
    decreases |infos|
  {
    if infos == [] then ZeroTally
    else
      var fi := infos[|infos| - 1];
      var t := TallyOf(infos[..|infos| - 1], k);
      if InScope(k, fi) then AddEntry(t, RecordType(fi), fi.size) else t
  }

  /** What every tally of recorded entries satisfies: it is consistent and
      has no "other" entries, since the record step never yields that type;
      the counts are non-negative and a type with no entries has size zero. */
  predicate RecordTally(t: Tally)
  {
    && Consistent(t) && t.others == 0 && t.othersSize == 0 && t.totalInodes == t.files + t.dirs + t.symlinks
    && t.files >= 0 && t.dirs >= 0 && t.symlinks >= 0
    && (t.files == 0 ==> t.filesSize == 0) && (t.dirs == 0 ==> t.dirsSize == 0)
    && (t.symlinks == 0 ==> t.symlinksSize == 0)
  }

  /** Adding an entry of a record type keeps that shape. */
  lemma AddKeepsRecordTally(t: Tally, k: InodeType, size: int)
    requires RecordTally(t) && k in RecordTypes
    ensures RecordTally(AddEntry(t, k, size))
  {
  }

  lemma {:induction false} TallyOfConsistent(infos: seq<FileInfo>, k: Scope)
    ensures RecordTally(TallyOf(infos, k))
    decreases |infos|
  {
    if infos != [] {
      var fi := infos[|infos| - 1];
      TallyOfConsistent(infos[..|infos| - 1], k);
      if InScope(k, fi) {
        AddKeepsRecordTally(TallyOf(infos[..|infos| - 1], k), RecordType(fi), fi.size);
      }
    }
  }


  /** Recording one more entry adds it to exactly the tallies whose scope
      covers it. */
  lemma TallyOfSnoc(infos: seq<FileInfo>, fi: FileInfo, k: Scope)
    ensures TallyOf(infos + [fi], k) ==
      if InScope(k, fi) then AddEntry(TallyOf(infos, k), RecordType(fi), fi.size) else TallyOf(infos, k)
  {
    assert (infos + [fi])[..|infos|] == infos;
  }

  /** A scope no recorded entry falls in has the zero tally. */
  lemma {:induction false} TallyOfNothing(infos: seq<FileInfo>, k: Scope)
    requires forall i :: 0 <= i < |infos| ==> !InScope(k, infos[i])
    ensures TallyOf(infos, k) == ZeroTally
    decreases |infos|
  {
    if infos != [] {
      TallyOfNothing(infos[..|infos| - 1], k);
    }
  }

  /** A map read the way Go reads a missing key: zero. */
  function Get<K>(m: map<K, int>, k: K): int
  {
    if k in m then m[k] else 0
  }

  /** The sum of a map's values: the four inode types are all the keys
      there can be, and a missing key adds nothing. */
  function SumValues(m: map<InodeType, int>): int
  {
    Get(m, File) + Get(m, Dir) + Get(m, Symlink) + Get(m, Other)
  }

  /** A key summed and removed leaves the sum of the rest, whichever key the
      map yields first. */
  lemma SumValuesRemove(m: map<InodeType, int>, k: InodeType)
    requires k in m
    ensures SumValues(m) == m[k] + SumValues(m - {k})
  {
  }

  // ---------------------------------------------------------------------------
  // The result tables as functions of the recorded entries
  // ---------------------------------------------------------------------------

  /** The per-type map of a tally: a key for every record type with a
      positive count, mapped to its count, resp. its size. */
  function CountMapOf(a: Tally): (m: map<InodeType, int>)
  {
    var m := if a.files > 0 then map[File := a.files] else map[];
    var m := if a.dirs > 0 then m[Dir := a.dirs] else m;
    if a.symlinks > 0 then m[Symlink := a.symlinks] else m
  }

  function SizeMapOf(a: Tally): (m: map<InodeType, int>)
  {
    var m := if a.files > 0 then map[File := a.filesSize] else map[];
    var m := if a.dirs > 0 then m[Dir := a.dirsSize] else m;
    if a.symlinks > 0 then m[Symlink := a.symlinksSize] else m
  }

  /** The keys of both maps are the record types with a positive count. */
  lemma TypeMapKeys(a: Tally, t: InodeType)
    ensures t in CountMapOf(a) <==> t in RecordTypes && CountOf(a, t) > 0
    ensures t in SizeMapOf(a) <==> t in RecordTypes && CountOf(a, t) > 0
    ensures t in CountMapOf(a) ==> CountMapOf(a)[t] == CountOf(a, t) && SizeMapOf(a)[t] == SizeOf(a, t)
  {
  }

  /** TotalFiles / TotalInodes: a key for every type some recorded entry has,
      mapped to the number of such entries. */
  function CountMap(all: seq<FileInfo>): map<InodeType, int>
  {
    CountMapOf(TallyOf(all, Everything))
  }

  /** TotalSize: the same keys, mapped to the summed sizes. */
  function SizeMap(all: seq<FileInfo>): map<InodeType, int>
  {
    SizeMapOf(TallyOf(all, Everything))
  }

  /** Adding an entry of a record type to a tally bumps that type's key in
      the count map, creating it on first use, and leaves the other keys. */
  lemma CountMapAdd(a: Tally, t: InodeType, size: int)
    requires t in RecordTypes && CountOf(a, t) >= 0
    ensures CountMapOf(AddEntry(a, t, size)) == CountMapOf(a)[t := Get(CountMapOf(a), t) + 1]
  {
    var a' := AddEntry(a, t, size);
    var c, c' := CountMapOf(a), CountMapOf(a');
    var cr := c[t := Get(c, t) + 1];
    forall o
      ensures (o in c' <==> o in cr) && (o in c' ==> c'[o] == cr[o])
    {
      TypeMapKeys(a, o);
      TypeMapKeys(a', o);
    }
    assert c' == cr;
  }

  /** The same for the size map: the type's size grows by the entry's size. */
  lemma SizeMapAdd(a: Tally, t: InodeType, size: int)
    requires t in RecordTypes && CountOf(a, t) >= 0 && (CountOf(a, t) == 0 ==> SizeOf(a, t) == 0)
    ensures SizeMapOf(AddEntry(a, t, size)) == SizeMapOf(a)[t := Get(SizeMapOf(a), t) + size]
  {
    var a' := AddEntry(a, t, size);
    var z, z' := SizeMapOf(a), SizeMapOf(a');
    var zr := z[t := Get(z, t) + size];
    forall o
      ensures (o in z' <==> o in zr) && (o in z' ==> z'[o] == zr[o])
    {
      TypeMapKeys(a, o);
      TypeMapKeys(a', o);
    }
    assert z' == zr;
  }


  /** The years of the recorded entries. */
  function Years(all: seq<FileInfo>): set<int>
  {
    set i | 0 <= i < |all| :: all[i].year
  }

  /** The owners of the recorded entries. */
  function Owners(all: seq<FileInfo>): set<uint32>
  {
    set i | 0 <= i < |all| :: all[i].uid
  }

  /** ByYear: a bucket for every year that occurs, holding the tally of that
      year's entries. */
  function YearMap(all: seq<FileInfo>): map<int, YearStat>
  {
    map y | y in Years(all) :: YearStat(y, TallyOf(all, InYear(y)))
  }

  /** lookupUsername: the name the user database gives, or "uid:" and the
      decimal UID when the lookup fails. */
  function LookupUsername(users: uint32 -> Option<string>, uid: uint32): string
  {
    if users(uid).Some? then users(uid).value else "uid:" + DecimalString(uid)
  }

  /** A fallback name carries the UID it stands for. */
  lemma FallbackNameShowsUID(users: uint32 -> Option<string>, uid: uint32)
    requires users(uid).None?
    ensures var name := LookupUsername(users, uid);
      |name| > 4 && name[..4] == "uid:" && AllDigits(name[4..]) && DecimalValue(name[4..]) == uid
  {
    var name := LookupUsername(users, uid);
    assert name[4..] == DecimalString(uid);
  }

  /** ByUID: a bucket for every owner that occurs, holding the owner's name
      and the tally of the owner's entries. */
  function UIDMap(all: seq<FileInfo>, users: uint32 -> Option<string>): map<uint32, UIDStat>
  {
    map u | u in Owners(all) :: UIDStat(u, LookupUsername(users, u), TallyOf(all, OfOwner(u)))
  }

  lemma YearsSnoc(all: seq<FileInfo>, fi: FileInfo)
    ensures Years(all + [fi]) == Years(all) + {fi.year}
    ensures Owners(all + [fi]) == Owners(all) + {fi.uid}
  {
    var all' := all + [fi];
    assert all'[|all|] == fi;
    forall y | y in Years(all') ensures y in Years(all) + {fi.year} {
      var i :| 0 <= i < |all'| && all'[i].year == y;
      if i < |all| {
        assert all[i] == all'[i];
      }
    }
    forall y | y in Years(all) ensures y in Years(all') {
      var i :| 0 <= i < |all| && all[i].year == y;
      assert all'[i] == all[i];
    }
    forall u | u in Owners(all') ensures u in Owners(all) + {fi.uid} {
      var i :| 0 <= i < |all'| && all'[i].uid == u;
      if i < |all| {
        assert all[i] == all'[i];
      }
    }
    forall u | u in Owners(all) ensures u in Owners(all') {
      var i :| 0 <= i < |all| && all[i].uid == u;
      assert all'[i] == all[i];
    }
  }

  /** Recording an entry adds one to the count of its type and its size to
      the size of its type, creating the key on first use. */
  lemma TypeMapsSnoc(all: seq<FileInfo>, fi: FileInfo)
    ensures CountMap(all + [fi]) == Bump(CountMap(all), RecordType(fi), 1)
    ensures SizeMap(all + [fi]) == Bump(SizeMap(all), RecordType(fi), fi.size)
  {
    var a := TallyOf(all, Everything);
    var t := RecordType(fi);
    TallyOfSnoc(all, fi, Everything);
    assert TallyOf(all + [fi], Everything) == AddEntry(a, t, fi.size);
    TallyOfConsistent(all, Everything);
    assert CountOf(a, t) >= 0 && (CountOf(a, t) == 0 ==> SizeOf(a, t) == 0);
    CountMapAdd(a, t, fi.size);
    SizeMapAdd(a, t, fi.size);
    assert CountMapOf(AddEntry(a, t, fi.size)) == CountMapOf(a)[t := Get(CountMapOf(a), t) + 1];
    assert SizeMapOf(AddEntry(a, t, fi.size)) == SizeMapOf(a)[t := Get(SizeMapOf(a), t) + fi.size];
  }

  /** The type maps read back as the tally of all recorded entries: each
      type's entry (zero when missing, as for "other") is its count or size,
      and the values sum to the total inodes, resp. the total size. */
  lemma TypeMapsSum(all: seq<FileInfo>)
    ensures var a := TallyOf(all, Everything);
      && (forall k :: Get(CountMap(all), k) == CountOf(a, k) && Get(SizeMap(all), k) == SizeOf(a, k))
      && SumValues(CountMap(all)) == a.totalInodes && SumValues(SizeMap(all)) == a.totalSize
  {
    var a := TallyOf(all, Everything);
    TallyOfConsistent(all, Everything);
    forall k ensures Get(CountMap(all), k) == CountOf(a, k) && Get(SizeMap(all), k) == SizeOf(a, k) {
      TypeMapKeys(a, k);
    }
  }

  /** A `for _, v := range m { s += v }` loop: adds the map's values to `start`. */
  method AddValues(start: int, m: map<InodeType, int>) returns (s: int)
    ensures s == start + SumValues(m)
  {
    s := start;
    var rest := m;
    while rest != map[]
      invariant s + SumValues(rest) == start + SumValues(m)
      decreases |rest|
    {
      var k :| k in rest;
      SumValuesRemove(rest, k);
      s := s + rest[k];
      assert (rest - {k}).Keys == rest.Keys - {k};
      rest := rest - {k};
    }
  }

  /** A year, resp. owner, no recorded entry has gets the zero tally. */
  lemma AbsentHasZeroTally(all: seq<FileInfo>, y: int, u: uint32)
    ensures y !in Years(all) ==> TallyOf(all, InYear(y)) == ZeroTally
    ensures u !in Owners(all) ==> TallyOf(all, OfOwner(u)) == ZeroTally
  {
    if y !in Years(all) {
      forall i | 0 <= i < |all| ensures !InScope(InYear(y), all[i]) {
        assert all[i].year in Years(all);
      }
      TallyOfNothing(all, InYear(y));
    }
    if u !in Owners(all) {
      forall i | 0 <= i < |all| ensures !InScope(OfOwner(u), all[i]) {
        assert all[i].uid in Owners(all);
      }
      TallyOfNothing(all, OfOwner(u));
    }
  }

  /** Recording an entry adds it to the bucket of its year and to that of its
      owner, creating each bucket on first use; no other bucket changes. */
  lemma YearMapSnoc(all: seq<FileInfo>, fi: FileInfo)
    ensures YearMap(all + [fi]) == EnterYear(YearMap(all), fi)
  {
    var m', r := YearMap(all + [fi]), EnterYear(YearMap(all), fi);
    YearsSnoc(all, fi);
    forall y
      ensures (y in m' <==> y in r) && (y in m' ==> m'[y] == r[y])
    {
      TallyOfSnoc(all, fi, InYear(y));
      if y == fi.year {
        AbsentHasZeroTally(all, y, fi.uid);
      }
    }
    assert m' == r;
  }

  lemma UIDMapSnoc(all: seq<FileInfo>, fi: FileInfo, users: uint32 -> Option<string>)
    ensures UIDMap(all + [fi], users) == EnterUID(UIDMap(all, users), fi, users)
  {
    var m', r := UIDMap(all + [fi], users), EnterUID(UIDMap(all, users), fi, users);
    YearsSnoc(all, fi);
    forall u
      ensures (u in m' <==> u in r) && (u in m' ==> m'[u] == r[u])
    {
      TallyOfSnoc(all, fi, OfOwner(u));
      if u == fi.uid {
        AbsentHasZeroTally(all, fi.year, u);
      }
    }
    assert m' == r;
  }

  /** The five maps of Results. */
  datatype Tables = Tables(
    totalFiles: map<InodeType, int>, totalSize: map<InodeType, int>, totalInodes: map<InodeType, int>,
    byYear: map<int, YearStat>, byUID: map<uint32, UIDStat>)

  const NoTables: Tables := Tables(map[], map[], map[], map[], map[])

  /** The record step on the maps: bump the entry's type in the three type
      maps, then find or create the bucket of its year, resp. owner (naming a
      new owner through lookupUsername), and add the entry to it. */
  function Enter(tb: Tables, fi: FileInfo, users: uint32 -> Option<string>): Tables
  {
    var t := RecordType(fi);
    Tables(
      Bump(tb.totalFiles, t, 1), Bump(tb.totalSize, t, fi.size), Bump(tb.totalInodes, t, 1),
      EnterYear(tb.byYear, fi), EnterUID(tb.byUID, fi, users))
  }

  /** `m[t] += d` on a Go map: a missing key counts as zero. */
  function Bump(m: map<InodeType, int>, t: InodeType, d: int): map<InodeType, int>
  {
    m[t := Get(m, t) + d]
  }

  function EnterYear(m: map<int, YearStat>, fi: FileInfo): map<int, YearStat>
  {
    var ys := if fi.year in m then m[fi.year] else YearStat(fi.year, ZeroTally);
    m[fi.year := ys.(tally := AddEntry(ys.tally, RecordType(fi), fi.size))]
  }

  function EnterUID(m: map<uint32, UIDStat>, fi: FileInfo, users: uint32 -> Option<string>): map<uint32, UIDStat>
  {
    var us := if fi.uid in m then m[fi.uid] else UIDStat(fi.uid, LookupUsername(users, fi.uid), ZeroTally);
    m[fi.uid := us.(tally := AddEntry(us.tally, RecordType(fi), fi.size))]
  }

  /** What the maps mean: the per-type tallies of all recorded entries, and a
      bucket per occurring year and owner with the tally of its entries. */
  function Meaning(all: seq<FileInfo>, users: uint32 -> Option<string>): Tables
  {
    Tables(CountMap(all), SizeMap(all), CountMap(all), YearMap(all), UIDMap(all, users))
  }

  /** One record step takes the meaning of the entries so far to the meaning
      of the entries with one more. */
  lemma EnterMeaning(all: seq<FileInfo>, fi: FileInfo, users: uint32 -> Option<string>)
    ensures Enter(Meaning(all, users), fi, users) == Meaning(all + [fi], users)
  {
    TypeMapsSnoc(all, fi);
    YearMapSnoc(all, fi);
    UIDMapSnoc(all, fi, users);
  }





  /** Before anything is recorded the maps are empty. */
  lemma NothingRecorded(users: uint32 -> Option<string>)
    ensures Meaning([], users) == NoTables
  {
    assert CountMap([]) == map[] && SizeMap([]) == map[];
    assert Years([]) == {} && Owners([]) == {};
  }

  /** calculateSummary applied to summary `s`: the inode and size totals are
      added to what `s` holds (the loops over the maps use +=), the per-type
      figures are overwritten with the map values ("other" is never a key). */
  function SummaryAfter(s: Tally, all: seq<FileInfo>): Tally
  {
    var a := TallyOf(all, Everything);
    Tally(s.totalSize + a.totalSize, s.totalInodes + a.totalInodes,
          a.files, a.dirs, a.symlinks, 0, a.filesSize, a.dirsSize, a.symlinksSize, 0)
  }

  /** calculateSummary read off the type maps: summing their values and
      copying the four per-type entries gives SummaryAfter. */
  lemma SummaryFromTypeMaps(s: Tally, all: seq<FileInfo>)
    ensures var c, z := CountMap(all), SizeMap(all);
      SummaryAfter(s, all) ==
        s.(totalInodes := s.totalInodes + SumValues(c), totalSize := s.totalSize + SumValues(z),
           files := Get(c, File), dirs := Get(c, Dir), symlinks := Get(c, Symlink), others := Get(c, Other),
           filesSize := Get(z, File), dirsSize := Get(z, Dir), symlinksSize := Get(z, Symlink), othersSize := Get(z, Other))
  {
    TypeMapsSum(all);
  }

  /** Starting from the zero summary, the summary is the tally of all
      recorded entries. */
  lemma FreshSummaryIsTally(all: seq<FileInfo>)
    ensures SummaryAfter(ZeroTally, all) == TallyOf(all, Everything)
  {
    TallyOfConsistent(all, Everything);
  }

  /** What one callback of the walk contributes to AllFileInfos. */
  function Admitted(filters: Option<Filters>, now: int, relPath: string, result: StatResult): (r: seq<FileInfo>)
  {
    if result.StatOk? && MatchesOrAll(filters, FileInfoOf(relPath, result.info), now)
    then [FileInfoOf(relPath, result.info)] else []
  }

  /** What one observation of the walk contributes: the lstat callbacks go
      to Record, nothing else does. */
  function ObsAdmitted(filters: Option<Filters>, now: int, o: Obs): seq<FileInfo>
  {
    if o.Emitted? && o.event.LstatEvent? then Admitted(filters, now, o.event.relPath, o.event.result) else []
  }

  /** The entries recorded from a sequence of callbacks: those of the lstat
      callbacks whose lstat succeeded and whose entry passes the filters. */
  function Recorded(filters: Option<Filters>, now: int, obs: seq<Obs>): seq<FileInfo>
    decreases |obs|
  {
    if obs == [] then []
    else Recorded(filters, now, obs[..|obs| - 1]) + ObsAdmitted(filters, now, obs[|obs| - 1])
  }

  lemma RecordedPrefix(filters: Option<Filters>, now: int, obs: seq<Obs>, i: nat)
    requires i < |obs|
    ensures Recorded(filters, now, obs[..i + 1]) == Recorded(filters, now, obs[..i]) + ObsAdmitted(filters, now, obs[i])
  {
    assert obs[..i + 1][..i] == obs[..i];
  }

  /** A FileInfo is recorded exactly when some lstat callback produced it
      from a successful lstat and it passes the filters. */
  lemma {:induction false} RecordedMembers(filters: Option<Filters>, now: int, obs: seq<Obs>, fi: FileInfo)
    ensures fi in Recorded(filters, now, obs) <==>
      exists i, d, rel, info :: 0 <= i < |obs| && obs[i] == Emitted(LstatEvent(d, rel, StatOk(info))) &&
        fi == FileInfoOf(rel, info) && MatchesOrAll(filters, fi, now)
    decreases |obs|
  {
    if obs != [] {
      var init := obs[..|obs| - 1];
      RecordedMembers(filters, now, init, fi);
      var o := obs[|obs| - 1];
      if fi in Recorded(filters, now, obs) {
        if fi !in Recorded(filters, now, init) {
          assert o.Emitted? && o.event.LstatEvent? && o.event.result.StatOk?;
          assert obs[|obs| - 1] == Emitted(LstatEvent(o.event.isDir, o.event.relPath, StatOk(o.event.result.info)));
        } else {
          var i, d, rel, info :| 0 <= i < |init| && init[i] == Emitted(LstatEvent(d, rel, StatOk(info))) &&
            fi == FileInfoOf(rel, info) && MatchesOrAll(filters, fi, now);
          assert obs[i] == init[i];
        }
      } else {
        forall i, d, rel, info | 0 <= i < |obs| && obs[i] == Emitted(LstatEvent(d, rel, StatOk(info))) &&
          MatchesOrAll(filters, FileInfoOf(rel, info), now)
          ensures fi != FileInfoOf(rel, info)
        {
          if i < |init| {
            assert init[i] == obs[i];
          }
        }
      }
    }
  }

  /** The entries recorded over several walks, one callback sequence each. */
  function RecordedAll(filters: Option<Filters>, now: int, traces: seq<seq<Obs>>): seq<FileInfo>
    decreases |traces|
  {
    if traces == [] then []
    else RecordedAll(filters, now, traces[..|traces| - 1]) + Recorded(filters, now, traces[|traces| - 1])
  }

  /** `t` is a complete trace of a walk of `tree` with the stats callbacks:
      it holds each step of the walk's work once. */
  ghost predicate WalkedFully(t: seq<Obs>, tree: Node)
  {
    multiset(t) == WorkOf(tree, StatCallbacks, Root)
  }

  lemma WalkedFullySnoc(traces: seq<seq<Obs>>, trees: seq<Node>, t: seq<Obs>)
    requires |traces| < |trees| && WalkedFully(t, trees[|traces|])
    requires forall j :: 0 <= j < |traces| ==> WalkedFully(traces[j], trees[j])
    ensures forall j :: 0 <= j <= |traces| ==> WalkedFully((traces + [t])[j], trees[j])
  {
  }

  lemma RecordedAllSnoc(filters: Option<Filters>, now: int, traces: seq<seq<Obs>>, t: seq<Obs>)
    ensures RecordedAll(filters, now, traces + [t]) == RecordedAll(filters, now, traces) + Recorded(filters, now, t)
  {
    assert (traces + [t])[..|traces|] == traces;
  }

  // ---------------------------------------------------------------------------
  // The walker
  // ---------------------------------------------------------------------------

  /** The callbacks walkPath hands to cwalk: only OnLstat. */
  const StatCallbacks: Callbacks := Callbacks(true, false, false, false)

  /** StatsWalker with its Results. `users` stands for the system's user
      database that lookupUsername consults; `now` stands for time.Now(). */
  class StatsWalker {
    const paths: seq<string>
    const workers: int
    const filters: Option<Filters>
    const users: uint32 -> Option<string>
    var summary: Tally
    var byYear: map<int, YearStat>
    var byUID: map<uint32, UIDStat>
    var totalFiles: map<InodeType, int>
    var totalSize: map<InodeType, int>
    var totalInodes: map<InodeType, int>
    var allFileInfos: seq<FileInfo>

    /** The maps as one value. */
    function Maps(): Tables
      reads this`totalFiles, this`totalSize, this`totalInodes, this`byYear, this`byUID
    {
      Tables(totalFiles, totalSize, totalInodes, byYear, byUID)
    }

    /** The maps hold the tallies of the entries in AllFileInfos: the
        per-type counts and sizes, and a bucket per occurring year and owner. */
    ghost predicate Valid()
      reads this`totalFiles, this`totalSize, this`totalInodes, this`byYear, this`byUID, this`allFileInfos
    {
      Maps() == Meaning(allFileInfos, users)
    }

    /** NewStatsWalker: an all-zero summary, empty maps, nothing recorded. */
    constructor (paths: seq<string>, workers: int, filters: Option<Filters>, users: uint32 -> Option<string>)
      ensures Valid()
      ensures this.paths == paths && this.workers == workers && this.filters == filters && this.users == users
      ensures summary == ZeroTally && allFileInfos == []
      ensures byYear == map[] && byUID == map[] && totalFiles == map[] && totalSize == map[] && totalInodes == map[]
    {
      this.paths := paths;
      this.workers := workers;
      this.filters := filters;
      this.users := users;
      summary := ZeroTally;
      byYear := map[];
      byUID := map[];
      totalFiles := map[];
      totalSize := map[];
      totalInodes := map[];
      allFileInfos := [];
      NothingRecorded(users);
    }

    /** The OnLstat closure of walkPath: an entry whose lstat succeeded and
        that passes the filters is appended to AllFileInfos and added to its
        type's totals, its year's bucket and its owner's bucket. */
    method Record(isDir: bool, relPath: string, result: StatResult, now: int)
      requires Valid()
      modifies this`totalFiles, this`totalSize, this`totalInodes, this`byYear, this`byUID, this`allFileInfos
      ensures Valid()
      ensures allFileInfos == old(allFileInfos) + Admitted(filters, now, relPath, result)
    {
      if result.StatErr? {
        return;
      }
      var fi := FileInfoOf(relPath, result.info);
      if !MatchesOrAll(filters, fi, now) {
        return;
      }
      ghost var recorded := allFileInfos;
      Add(fi);
      EnterMeaning(recorded, fi, users);
    }

    /** The part of the closure after the filter check, under the mutex:
        append the entry, then update the type counts, the year stats and the
        UID stats; together the record step Enter. */
    method Add(fi: FileInfo)
      modifies this`totalFiles, this`totalSize, this`totalInodes, this`byYear, this`byUID, this`allFileInfos
      ensures Maps() == Enter(old(Maps()), fi, users)
      ensures allFileInfos == old(allFileInfos) + [fi]
    {
      allFileInfos := allFileInfos + [fi];
      var fileType := RecordType(fi);
      UpdateCounts(fileType, fi.size);
      UpdateYearStats(fi);
      UpdateUIDStats(fi);
    }

    /** `TotalFiles[fileType]++`, `TotalSize[fileType] += size`,
        `TotalInodes[fileType]++`. */
    method UpdateCounts(fileType: InodeType, size: int)
      modifies this`totalFiles, this`totalSize, this`totalInodes
      ensures totalFiles == Bump(old(totalFiles), fileType, 1)
      ensures totalSize == Bump(old(totalSize), fileType, size)
      ensures totalInodes == Bump(old(totalInodes), fileType, 1)
    {
      totalFiles := totalFiles[fileType := Get(totalFiles, fileType) + 1];
      totalSize := totalSize[fileType := Get(totalSize, fileType) + size];
      totalInodes := totalInodes[fileType := Get(totalInodes, fileType) + 1];
    }

    /** Find or create the YearStat of the entry's year and add the entry. */
    method UpdateYearStats(fi: FileInfo)
      modifies this`byYear
      ensures byYear == EnterYear(old(byYear), fi)
    {
      var year := fi.year;
      if year !in byYear {
        byYear := byYear[year := YearStat(year, ZeroTally)];
      }
      var ys := byYear[year];
      byYear := byYear[year := ys.(tally := AddEntry(ys.tally, RecordType(fi), fi.size))];
    }

    /** Find or create the UIDStat of the entry's owner (looking up the
        username on creation) and add the entry. */
    method UpdateUIDStats(fi: FileInfo)
      modifies this`byUID
      ensures byUID == EnterUID(old(byUID), fi, users)
    {
      if fi.uid !in byUID {
        byUID := byUID[fi.uid := UIDStat(fi.uid, LookupUsername(users, fi.uid), ZeroTally)];
      }
      var us := byUID[fi.uid];
      byUID := byUID[fi.uid := us.(tally := AddEntry(us.tally, RecordType(fi), fi.size))];
    }

    /** The cwalk part of walkPath: a Walker with OnLstat only, run over the
        tree at rootPath. It returns the walk's trace, through which the
        lstat callbacks reach Record. */
    method RunCwalk(rootPath: string, fs: Node) returns (err: Option<WalkError>, log: seq<Obs>)
      requires ValidTree(fs)
      ensures err == None
      ensures multiset(log) == WorkOf(fs, StatCallbacks, Root)
    {
      var walker := new Walker(rootPath, workers, StatCallbacks);
      err := walker.Run(fs);
      log := walker.trace;
    }

    /** walkPath: runs cwalk over the tree at rootPath and hands every lstat
        callback to Record, in the order of the walk's trace. */
    method WalkPath(rootPath: string, fs: Node, now: int) returns (err: Option<WalkError>, ghost trace: seq<Obs>)
      requires Valid() && ValidTree(fs)
      modifies this`totalFiles, this`totalSize, this`totalInodes, this`byYear, this`byUID, this`allFileInfos
      ensures Valid() && err == None
      ensures WalkedFully(trace, fs)
      ensures allFileInfos == old(allFileInfos) + Recorded(filters, now, trace)
    {
      var log;
      err, log := RunCwalk(rootPath, fs);
      trace := log;
      var i := 0;
      assert log[..0] == [];
      while i < |log|
        invariant 0 <= i <= |log|
        invariant Valid()
        invariant allFileInfos == old(allFileInfos) + Recorded(filters, now, log[..i])
      {
        ghost var prev := allFileInfos;
        match log[i] {
          case Emitted(LstatEvent(isDir, relPath, result)) =>
            Record(isDir, relPath, result, now);
          case _ =>
        }
        RecordedPrefix(filters, now, log, i);
        AppendAssoc(old(allFileInfos), Recorded(filters, now, log[..i]), ObsAdmitted(filters, now, log[i]));
        i := i + 1;
      }
      assert log[..i] == log;
    }

    /** calculateSummary: sums TotalInodes and TotalSize over their keys in
        whatever order the map yields them, adding to the summary, then copies
        the per-type figures. */
    method CalculateSummary()
      requires Valid()
      modifies this`summary
      ensures Valid()
      ensures summary == SummaryAfter(old(summary), allFileInfos)
    {
      summary := Summarised();
    }

    /** The summary calculateSummary computes from the type maps, before it
        is stored. */
    method Summarised() returns (s: Tally)
      requires totalFiles == CountMap(allFileInfos) && totalInodes == CountMap(allFileInfos)
      requires totalSize == SizeMap(allFileInfos)
      ensures s == SummaryAfter(summary, allFileInfos)
    {
      SummaryFromTypeMaps(summary, allFileInfos);
      var inodes := AddValues(summary.totalInodes, totalInodes);
      var size := AddValues(summary.totalSize, totalSize);
      s := summary.(totalInodes := inodes, totalSize := size,
        files := Get(totalFiles, File), dirs := Get(totalFiles, Dir),
        symlinks := Get(totalFiles, Symlink), others := Get(totalFiles, Other),
        filesSize := Get(totalSize, File), dirsSize := Get(totalSize, Dir),
        symlinksSize := Get(totalSize, Symlink), othersSize := Get(totalSize, Other));
    }

    /** Walk: walkPath for every configured path in order (cwalk's Run never
        fails, so no walk stops the loop), then calculateSummary. */
    method Walk(trees: seq<Node>, now: int) returns (err: Option<WalkError>, ghost traces: seq<seq<Obs>>)
      requires Valid() && |trees| == |paths|
      requires forall i :: 0 <= i < |trees| ==> ValidTree(trees[i])
      modifies this
      ensures Valid() && err == None && |traces| == |paths|
      ensures forall i :: 0 <= i < |paths| ==> WalkedFully(traces[i], trees[i])
      ensures allFileInfos == old(allFileInfos) + RecordedAll(filters, now, traces)
      ensures summary == SummaryAfter(old(summary), allFileInfos)
    {
      traces := [];
      var i := 0;
      while i < |paths|
        invariant 0 <= i <= |paths| && |traces| == i
        invariant Valid() && summary == old(summary)
        invariant forall j :: 0 <= j < i ==> WalkedFully(traces[j], trees[j])
        invariant allFileInfos == old(allFileInfos) + RecordedAll(filters, now, traces)
      {
        var e, t := WalkPath(paths[i], trees[i], now);
        RecordedAllSnoc(filters, now, traces, t);
        AppendAssoc(old(allFileInfos), RecordedAll(filters, now, traces), Recorded(filters, now, t));
        WalkedFullySnoc(traces, trees, t);
        traces := traces + [t];
        i := i + 1;
      }
      CalculateSummary();
      err := None;
    }
  }
}
