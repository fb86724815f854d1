/** Filters.Matches and getFileType (pkg/stat/filters.go): the criteria a
    recorded entry must pass, combined with AND. */
module StatFilters {
  import opened Wrappers
  import opened Fs

  /** stat.FileInfo. `modTime` is ModTime in nanoseconds since the Unix epoch;
      `year` is ModTime.Year(), which depends on the local time zone and is
      taken as given. */
  datatype FileInfo = FileInfo(
    path: string, size: int, mode: bv32, modTime: int, year: int,
    isDir: bool, isSymlink: bool, uid: uint32, gid: uint32)

  /** stat.Filters. A nil pointer field is None; durations are time.Duration
      values (nanoseconds); the compiled name regex is the predicate its
      MatchString computes. Usernames and Groupnames are carried but not
      consulted by Matches. */
  datatype Filters = Filters(
    types: map<string, bool>,
    mtimeOlderThan: Option<int>,
    mtimeYoungerThan: Option<int>,
    sizeMin: Option<int>,
    sizeMax: Option<int>,
    nameRegex: Option<string -> bool>,
    usernames: seq<string>,
    uids: seq<uint32>,
    groupnames: seq<string>,
    gids: seq<uint32>,
    permsHas: bv32,
    permsNot: bv32)

  /** The zero value `Filters{}`. */
  const NoFilters: Filters := Filters(map[], None, None, None, None, None, [], [], [], [], 0, 0)

  /** getFileType: "dir" before "symlink" before a regular "file"; anything
      else is "other". */
  function GetFileType(fi: FileInfo): (t: string)
    ensures t in {"dir", "symlink", "file", "other"}
    ensures t == "dir" <==> fi.isDir
    ensures t == "symlink" <==> !fi.isDir && fi.isSymlink
    ensures t == "file" <==> !fi.isDir && !fi.isSymlink && ModeIsRegular(fi.mode)
  {
    if fi.isDir then "dir"
    else if fi.isSymlink then "symlink"
    else if ModeIsRegular(fi.mode) then "file"
    else "other"
  }

  /** The text after the last '/', when there is a '/'. */
  function AfterLastSlash(p: string): (r: Option<string>)
    ensures r.None? <==> '/' !in p
    ensures r.Some? ==> '/' !in r.value && |r.value| < |p|
    ensures r.Some? ==> p[|p| - |r.value| - 1] == '/' && r.value == p[|p| - |r.value|..]
    decreases |p|
  {
    if p == [] then None
    else if p[|p| - 1] == '/' then Some([])
    else
      match AfterLastSlash(p[..|p| - 1])
      case None => None
      case Some(t) =>
        assert p[..|p| - 1][|p| - 1 - |t|..] == p[|p| - 1 - |t|..|p| - 1];
        Some(t + [p[|p| - 1]])
  }

  /** The name the regex is matched against: the text after the last '/' of
      the path, or the whole path when there is no '/' or nothing follows it. */
  function FileName(path: string): (name: string)
  {
    match AfterLastSlash(path)
    case Some(t) => if t == "" then path else t
    case None => path
  }

  /** The backward scan finds the last '/': for a directory part followed by a
      plain name, the name is what the regex sees. */
  lemma FileNameOfPath(dir: string, name: string)
    requires name != "" && '/' !in name
    ensures FileName(dir + "/" + name) == name
  {
    var p := dir + "/" + name;
    var r := AfterLastSlash(p);
    assert p[|dir|] == '/';
    assert r.Some?;
    var t := r.value;
    assert p[|p| - |t|..] == t;
    assert t == name;
  }

  /** A path without '/', or one ending in '/', is matched as a whole. */
  lemma FileNameWholePath(path: string)
    requires '/' !in path || path[|path| - 1] == '/'
    ensures FileName(path) == path
  {
  }

  // The criteria, one per block of Matches, each true when it is inactive.

  predicate TypeOk(f: Filters, fi: FileInfo)
  {
    |f.types| == 0 || (GetFileType(fi) in f.types && f.types[GetFileType(fi)])
  }

  predicate OlderOk(f: Filters, fi: FileInfo, now: int)
  {
    f.mtimeOlderThan.None? || fi.modTime <= now - f.mtimeOlderThan.value
  }

  predicate YoungerOk(f: Filters, fi: FileInfo, now: int)
  {
    f.mtimeYoungerThan.None? || fi.modTime >= now - f.mtimeYoungerThan.value
  }

  predicate SizeOk(f: Filters, fi: FileInfo)
  {
    (f.sizeMin.None? || f.sizeMin.value <= fi.size) && (f.sizeMax.None? || fi.size <= f.sizeMax.value)
  }

  predicate NameOk(f: Filters, fi: FileInfo)
  {
    f.nameRegex.None? || f.nameRegex.value(FileName(fi.path))
  }

  predicate OwnerOk(f: Filters, fi: FileInfo)
  {
    (|f.uids| == 0 || fi.uid in f.uids) && (|f.gids| == 0 || fi.gid in f.gids)
  }

  predicate PermsOk(f: Filters, fi: FileInfo)
  {
    (f.permsHas == 0 || Perm(fi.mode) & f.permsHas == f.permsHas) &&
    (f.permsNot == 0 || Perm(fi.mode) & f.permsNot == 0)
  }

  /** Filters.Matches: the checks in source order, each returning false as
      soon as it fails (the UID and GID loops set `found` exactly when the
      owner is listed); `now` is time.Now(). A FileInfo matches exactly when
      it passes every criterion. */
  function Matches(f: Filters, fi: FileInfo, now: int): (r: bool)
    ensures r <==> TypeOk(f, fi) && OlderOk(f, fi, now) && YoungerOk(f, fi, now) && SizeOk(f, fi) &&
                   NameOk(f, fi) && OwnerOk(f, fi) && PermsOk(f, fi)
  {
    if !TypeOk(f, fi) then false
    else if !OlderOk(f, fi, now) then false
    else if !YoungerOk(f, fi, now) then false
    else if !SizeOk(f, fi) then false
    else if !NameOk(f, fi) then false
    else if !OwnerOk(f, fi) then false
    else if !PermsOk(f, fi) then false
    else true
  }

  /** The zero Filters matches every entry at every time. */
  lemma NoFiltersMatchEverything(fi: FileInfo, now: int)
    ensures Matches(NoFilters, fi, now)
  {
  }

  /** `g` is `f` with possibly more criteria switched on: every field of `g`
      equals the one of `f` or the one of `f` is inactive (a name regex of `g`
      accepts no name that the one of `f` rejects). */
  ghost predicate Tightens(g: Filters, f: Filters)
  {
    && (g.types == f.types || |f.types| == 0)
    && (g.mtimeOlderThan == f.mtimeOlderThan || f.mtimeOlderThan.None?)
    && (g.mtimeYoungerThan == f.mtimeYoungerThan || f.mtimeYoungerThan.None?)
    && (g.sizeMin == f.sizeMin || f.sizeMin.None?)
    && (g.sizeMax == f.sizeMax || f.sizeMax.None?)
    && (f.nameRegex.None? || (g.nameRegex.Some? && forall n :: g.nameRegex.value(n) ==> f.nameRegex.value(n)))
    && (g.uids == f.uids || |f.uids| == 0)
    && (g.gids == f.gids || |f.gids| == 0)
    && (g.permsHas == f.permsHas || f.permsHas == 0)
    && (g.permsNot == f.permsNot || f.permsNot == 0)
  }

  /** Criteria combine by AND: switching more of them on can turn a match
      into a rejection and never the other way round. */
  lemma TighterFiltersMatchLess(g: Filters, f: Filters, fi: FileInfo, now: int)
    requires Tightens(g, f)
    ensures Matches(g, fi, now) ==> Matches(f, fi, now)
  {
    if Matches(g, fi, now) {
      assert TypeOk(f, fi);
      assert OlderOk(f, fi, now) && YoungerOk(f, fi, now);
      assert SizeOk(f, fi);
      if f.nameRegex.Some? {
        assert g.nameRegex.value(FileName(fi.path));
      }
      assert OwnerOk(f, fi);
      assert PermsOk(f, fi);
    }
  }

  /** With a non-empty Types map, an entry matches only when its type is
      mapped to true. */
  lemma TypesSelect(f: Filters, fi: FileInfo, now: int)
    requires |f.types| > 0
    ensures Matches(f, fi, now) ==> GetFileType(fi) in f.types && f.types[GetFileType(fi)]
    ensures Matches(f.(types := map[]), fi, now) && GetFileType(fi) in f.types && f.types[GetFileType(fi)] ==>
      Matches(f, fi, now)
  {
  }

  /** With only a Types map set, an entry matches exactly when the map is
      empty or maps its type name to true. */
  lemma OnlyTypesSet(types: map<string, bool>, fi: FileInfo, now: int)
    ensures Matches(NoFilters.(types := types), fi, now) <==>
      |types| == 0 || (GetFileType(fi) in types && types[GetFileType(fi)])
  {
  }

  /** The size bounds are inclusive; with only the bounds set, an entry
      matches exactly when its size lies between them. */
  lemma SizeBoundsInclusive(lo: int, hi: int, fi: FileInfo, now: int)
    ensures Matches(NoFilters.(sizeMin := Some(lo), sizeMax := Some(hi)), fi, now) <==> lo <= fi.size <= hi
  {
  }

  /** A non-empty UID list requires membership; with only that list set an
      entry matches exactly when its owner is listed. The GID list alike. */
  lemma OwnerListsRequireMembership(uids: seq<uint32>, gids: seq<uint32>, fi: FileInfo, now: int)
    requires |uids| > 0 && |gids| > 0
    ensures Matches(NoFilters.(uids := uids), fi, now) <==> fi.uid in uids
    ensures Matches(NoFilters.(gids := gids), fi, now) <==> fi.gid in gids
  {
  }

  /** With only the name regex set, the regex sees the last path element. */
  lemma NameRegexSeesLastElement(re: string -> bool, dir: string, name: string, fi: FileInfo, now: int)
    requires name != "" && '/' !in name && fi.path == dir + "/" + name
    ensures Matches(NoFilters.(nameRegex := Some(re)), fi, now) <==> re(name)
  {
    FileNameOfPath(dir, name);
  }

  /** PermsHas needs all of its bits among the nine permission bits, so a
      mask with a bit beyond them matches nothing; PermsNot bits beyond them
      exclude nothing. */
  lemma PermsBeyondPermissionBits(m: bv32, fi: FileInfo, now: int)
    requires m & !ModePerm != 0
    ensures !Matches(NoFilters.(permsHas := m), fi, now)
    ensures m & ModePerm == 0 ==> Matches(NoFilters.(permsNot := m), fi, now)
  {
    assert Perm(fi.mode) & !ModePerm == 0;
  }

  /** The modification-time bounds: OlderThan keeps entries at least `d`
      old, YoungerThan entries at most `d` old. */
  lemma MtimeBounds(d: int, fi: FileInfo, now: int)
    ensures Matches(NoFilters.(mtimeOlderThan := Some(d)), fi, now) <==> now - fi.modTime >= d
    ensures Matches(NoFilters.(mtimeYoungerThan := Some(d)), fi, now) <==> now - fi.modTime <= d
  {
  }
}
