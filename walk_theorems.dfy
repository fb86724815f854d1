/** What a complete walk shows, stated against the directory tree: every
    directory reachable from the root without passing through ".snapshot",
    a failed lstat or a failed ReadDir is processed exactly once, and nothing
    else is. */
module WalkTheorems {
  import opened Wrappers
  import opened Fs
  import opened Branches
  import opened WalkSpec

  /** `x` names a directory the walk must reach: it is the root, or its parent
      is reachable, lstat and ReadDir succeed on the parent, and the parent's
      listing holds a directory entry named like `x` other than ".snapshot". */
  ghost predicate Reachable(fs: Node, x: Branch)
    decreases x
  {
    if IsRoot(x) then x == Root
    else
      var parent := x.parent.value;
      && Reachable(fs, parent)
      && match NodeAt(fs, parent)
         case None => false
         case Some(n) =>
           && n.stat.StatOk? && ListingOf(n).Listed?
           && exists e :: e in ListingOf(n).entries && e.name == x.basename && IsDirEntry(e) && e.name != ".snapshot"
  }

  /** A descendant of a child is a descendant of the parent. */
  lemma {:induction false} ExtendsChild(x: Branch, b: Branch, name: string)
    requires Extends(x, Child(b, name))
    ensures Extends(x, b)
    decreases x
  {
    if x != Child(b, name) {
      ExtendsChild(x.parent.value, b, name);
    }
  }

  lemma EmitHasNoExpansion(evs: seq<Event>, x: Branch)
    ensures multiset(Emit(evs))[Expanded(x)] == 0
  {
    assert Expanded(x) !in Emit(evs);
  }

  lemma EntryIsSmaller(n: Node, k: nat)
    requires k < |EntriesOf(n)|
    ensures EntriesOf(n)[k].node < n
  {
    var e := EntriesOf(n)[k];
    assert n.kind.Directory? && n.kind.listing.Listed?;
    assert e in n.kind.listing.entries;
  }

  /** Within the work of branch `b`, a branch is expanded at most once, and
      only if it is `b` or one of its descendants. */
  lemma {:induction false} WorkAtExpandsOnce(cbs: Callbacks, n: Node, b: Branch, x: Branch)
    requires ValidTree(n)
    ensures WorkAt(cbs, n, b)[Expanded(x)] <= 1
    ensures !Extends(x, b) ==> WorkAt(cbs, n, b)[Expanded(x)] == 0
    decreases n, 1, 0
  {
    var k := |EntriesOf(n)|;
    EntriesWorkExpandsOnce(cbs, n, b, k, x);
    EmitHasNoExpansion(ExpandEventsAt(cbs, Some(n), b), x);
    var rest := EntriesWork(cbs, n, b, k);
    if rest[Expanded(x)] > 0 {
      var j :| 0 <= j < k && Descends(EntriesOf(n)[j]) && Extends(x, Child(b, EntriesOf(n)[j].name));
      ExtendsChild(x, b, EntriesOf(n)[j].name);
      if x == b {
        NotBelowOwnChild(b, EntriesOf(n)[j].name);
      }
    }
  }

  lemma {:induction false} EntriesWorkExpandsOnce(cbs: Callbacks, n: Node, b: Branch, k: nat, x: Branch)
    requires ValidTree(n) && k <= |EntriesOf(n)|
    ensures EntriesWork(cbs, n, b, k)[Expanded(x)] <= 1
    ensures EntriesWork(cbs, n, b, k)[Expanded(x)] > 0 ==>
      exists j :: 0 <= j < k && Descends(EntriesOf(n)[j]) && Extends(x, Child(b, EntriesOf(n)[j].name))
    decreases n, 0, k
  {
    if k > 0 {
      var es := EntriesOf(n);
      var e := es[k - 1];
      EntriesWorkExpandsOnce(cbs, n, b, k - 1, x);
      if Descends(e) {
        EntryIsSmaller(n, k - 1);
        assert ValidTree(e.node);
        WorkAtExpandsOnce(cbs, e.node, Child(b, e.name), x);
        var before := EntriesWork(cbs, n, b, k - 1);
        var here := WorkAt(cbs, e.node, Child(b, e.name));
        if before[Expanded(x)] > 0 && here[Expanded(x)] > 0 {
          var j :| 0 <= j < k - 1 && Descends(es[j]) && Extends(x, Child(b, es[j].name));
          SiblingsDisjoint(x, b, es[j].name, e.name);
          assert false;
        }
      }
    }
  }

  /** The walk of a valid tree processes no branch twice. */
  lemma ExpandedAtMostOnce(fs: Node, cbs: Callbacks, x: Branch)
    requires ValidTree(fs)
    ensures WorkOf(fs, cbs, Root)[Expanded(x)] <= 1
  {
    assert NodeAt(fs, Root) == Some(fs);
    WorkAtExpandsOnce(cbs, fs, Root, x);
  }

  lemma {:induction false} SumOverIncludes(w: Branch -> multiset<Obs>, q: seq<Branch>, c: Branch)
    requires c in q
    ensures w(c) <= SumOver(w, q)
    decreases |q|
  {
    if q[0] != c {
      SumOverIncludes(w, q[1..], c);
    }
  }

  lemma {:induction false} SumOverMember(w: Branch -> multiset<Obs>, q: seq<Branch>, o: Obs)
    requires o in SumOver(w, q)
    ensures exists c :: c in q && o in w(c)
    decreases |q|
  {
    if o !in w(q[0]) {
      SumOverMember(w, q[1..], o);
      var c :| c in q[1..] && o in w(c);
      assert c in q;
    }
  }

  /** The work of a reachable branch is part of the work of the root. */
  lemma {:induction false} ReachableWorkIncluded(fs: Node, cbs: Callbacks, x: Branch)
    requires ValidTree(fs) && Reachable(fs, x)
    ensures WorkOf(fs, cbs, x) <= WorkOf(fs, cbs, Root)
    decreases x
  {
    if !IsRoot(x) {
      var p := x.parent.value;
      ReachableWorkIncluded(fs, cbs, p);
      var n := NodeAt(fs, p).value;
      var e :| e in ListingOf(n).entries && e.name == x.basename && IsDirEntry(e) && e.name != ".snapshot";
      var k :| 0 <= k < |EntriesOf(n)| && EntriesOf(n)[k] == e;
      assert x == Child(p, e.name);
      assert x in ExpandChildren(fs, p);
      SumOverIncludes(Work(fs, cbs), ExpandChildren(fs, p), x);
      WorkUnfold(fs, cbs, p);
    }
  }

  /** Every branch processed within the work of a reachable branch is reachable. */
  lemma {:induction false} WorkAtOnlyReachable(fs: Node, cbs: Callbacks, n: Node, b: Branch, x: Branch)
    requires ValidTree(fs) && NodeAt(fs, b) == Some(n) && Reachable(fs, b)
    requires Expanded(x) in WorkAt(cbs, n, b)
    ensures Reachable(fs, x)
    decreases n
  {
    if x != b {
      WorkUnfold(fs, cbs, b);
      EmitHasNoExpansion(ExpandEvents(fs, cbs, b), x);
      var cs := ExpandChildren(fs, b);
      SumOverMember(Work(fs, cbs), cs, Expanded(x));
      var c :| c in cs && Expanded(x) in WorkOf(fs, cbs, c);
      var es := EntriesOf(n);
      var k :| 0 <= k < |es| && Descends(es[k]) && c == Child(b, es[k].name);
      LookupValid(fs, RelPathElems(b));
      LookupChild(fs, RelPathElems(b), n, k);
      assert NodeAt(fs, c) == Some(es[k].node);
      assert es[k] in ListingOf(n).entries;
      assert Reachable(fs, c);
      EntryIsSmaller(n, k);
      WorkAtOnlyReachable(fs, cbs, es[k].node, c, x);
    }
  }

  /** The walk of a valid tree processes each reachable directory exactly once
      and no other branch. */
  lemma EachReachableDirectoryOnce(fs: Node, cbs: Callbacks, x: Branch)
    requires ValidTree(fs)
    ensures WorkOf(fs, cbs, Root)[Expanded(x)] == if Reachable(fs, x) then 1 else 0
  {
    ExpandedAtMostOnce(fs, cbs, x);
    assert NodeAt(fs, Root) == Some(fs);
    if Reachable(fs, x) {
      ReachableWorkIncluded(fs, cbs, x);
      assert Expanded(x) in WorkOf(fs, cbs, x);
    } else if Expanded(x) in WorkOf(fs, cbs, Root) {
      WorkAtOnlyReachable(fs, cbs, fs, Root, x);
    }
  }

  /** With only OnLstat set, every callback of the walk is the lstat of a
      processed directory: files reach OnLstat only through the
      OnFileOrSymlink branch of processBranch. */
  lemma {:induction false} OnlyLstatSeesOnlyDirectories(n: Node, b: Branch, o: Obs)
    requires o in WorkAt(Callbacks(true, false, false, false), n, b)
    ensures o.Emitted? ==> o.event.LstatEvent? && o.event.isDir
    decreases n, 1, 0
  {
    var cbs := Callbacks(true, false, false, false);
    var es := EntriesOf(n);
    if o in EntriesWork(cbs, n, b, |es|) {
      OnlyLstatEntries(n, b, |es|, o);
    } else if o != Expanded(b) {
      var evs := ExpandEventsAt(cbs, Some(n), b);
      NoEntryEventsWithoutFileCallbacks(b, if ListingOf(n).Listed? then ListingOf(n).entries else []);
      var i :| 0 <= i < |evs| && Emit(evs)[i] == o;
    }
  }

  lemma {:induction false} OnlyLstatEntries(n: Node, b: Branch, k: nat, o: Obs)
    requires k <= |EntriesOf(n)|
    requires o in EntriesWork(Callbacks(true, false, false, false), n, b, k)
    ensures o.Emitted? ==> o.event.LstatEvent? && o.event.isDir
    decreases n, 0, k
  {
    var cbs := Callbacks(true, false, false, false);
    var e := EntriesOf(n)[k - 1];
    if o in EntriesWork(cbs, n, b, k - 1) {
      OnlyLstatEntries(n, b, k - 1, o);
    } else {
      EntryIsSmaller(n, k - 1);
      OnlyLstatSeesOnlyDirectories(e.node, Child(b, e.name), o);
    }
  }

  lemma {:induction false} NoEntryEventsWithoutFileCallbacks(b: Branch, es: seq<Entry>)
    ensures EntriesEvents(Callbacks(true, false, false, false), b, es) == []
    decreases |es|
  {
    if es != [] {
      NoEntryEventsWithoutFileCallbacks(b, es[..|es| - 1]);
    }
  }
}
