/** The traversal of cwalk.go stated over values: what processBranch does for
    one branch, the work-stealing rule, and the pool of worker queues advanced
    one worker step at a time. The imperative Walker in module Cwalk is proved
    against these definitions. */
module WalkSpec {
  import opened Wrappers
  import opened Fs
  import opened Branches

  /** Which of the four optional callbacks are set. */
  datatype Callbacks = Callbacks(onLstat: bool, onReadDir: bool, onFileOrSymlink: bool, onDirectory: bool)

  /** os.DirEntry as handed to a callback. */
  datatype DirEntryInfo = DirEntryInfo(name: string, isDir: bool)

  /** One callback invocation with the arguments it receives. */
  datatype Event =
    | LstatEvent(isDir: bool, relPath: string, result: StatResult)
    | ReadDirEvent(relPath: string, entries: seq<DirEntryInfo>, failed: bool)
    | DirectoryEvent(relPath: string, entry: DirEntryInfo)
    | FileOrSymlinkEvent(relPath: string, entry: DirEntryInfo)

  /** The error processBranch returns, naming the absolute path. */
  datatype WalkError = LstatFailed(absPath: string) | ReadDirFailed(absPath: string)

  /** What a walk shows: the start of processBranch for a branch, or a callback. */
  datatype Obs = Expanded(branch: Branch) | Emitted(event: Event)

  // ---------------------------------------------------------------------------
  // processBranch
  // ---------------------------------------------------------------------------

  /** The inode at the branch's path (what os.Lstat and os.ReadDir look at). */
  function NodeAt(fs: Node, b: Branch): Option<Node>
  {
    Lookup(fs, RelPathElems(b))
  }

  function StatOf(node: Option<Node>): StatResult
  {
    if node.Some? then node.value.stat else StatErr
  }

  function InfoOf(e: Entry): DirEntryInfo
  {
    DirEntryInfo(e.name, IsDirEntry(e))
  }

  function Infos(es: seq<Entry>): seq<DirEntryInfo>
  {
    seq(|es|, k requires 0 <= k < |es| => InfoOf(es[k]))
  }

  /** A listed entry the walk descends into: a directory not named ".snapshot". */
  predicate Descends(e: Entry)
  {
    IsDirEntry(e) && e.name != ".snapshot"
  }

  /** The callbacks made for one listed entry of branch `b`. */
  function EntryEvents(cbs: Callbacks, b: Branch, e: Entry): seq<Event>
  {
    var rel := ChildRelPath(b, e.name);
    if IsDirEntry(e) then
      if e.name == ".snapshot" || !cbs.onDirectory then [] else [DirectoryEvent(rel, InfoOf(e))]
    else if cbs.onFileOrSymlink then
      [FileOrSymlinkEvent(rel, InfoOf(e))] + (if cbs.onLstat then [LstatEvent(false, rel, e.node.stat)] else [])
    else []
  }

  lemma AppendAssoc<T>(a: seq<T>, b: seq<T>, c: seq<T>)
    ensures (a + b) + c == a + (b + c)
  {
  }

  function EntriesEvents(cbs: Callbacks, b: Branch, es: seq<Entry>): seq<Event>
    decreases |es|
  {
    if es == [] then [] else EntriesEvents(cbs, b, es[..|es| - 1]) + EntryEvents(cbs, b, es[|es| - 1])
  }

  /** The branches pushed for the listed entries, in listing order: exactly the
      children named by a descended entry. */
  function EntriesChildren(b: Branch, es: seq<Entry>): (cs: seq<Branch>)
    ensures forall c :: c in cs <==> exists k :: 0 <= k < |es| && Descends(es[k]) && c == Child(b, es[k].name)
    decreases |es|
  {
    if es == [] then []
    else
      var e := es[|es| - 1];
      var init := es[..|es| - 1];
      assert forall k :: 0 <= k < |init| ==> init[k] == es[k];
      EntriesChildren(b, init) + (if Descends(e) then [Child(b, e.name)] else [])
  }

  /** Going through one more listed entry appends that entry's callbacks and
      pushes. */
  lemma EntriesSnoc(cbs: Callbacks, b: Branch, es: seq<Entry>, i: nat)
    requires i < |es|
    ensures EntriesEvents(cbs, b, es[..i + 1]) == EntriesEvents(cbs, b, es[..i]) + EntryEvents(cbs, b, es[i])
    ensures EntriesChildren(b, es[..i + 1]) ==
      EntriesChildren(b, es[..i]) + (if Descends(es[i]) then [Child(b, es[i].name)] else [])
  {
    assert es[..i + 1][..i] == es[..i];
  }

  /** The entries processBranch goes through: none unless both the lstat and
      the ReadDir of the branch succeed. */
  function ProcessedEntries(node: Option<Node>): seq<Entry>
  {
    if node.Some? && node.value.stat.StatOk? && ListingOf(node.value).Listed? then ListingOf(node.value).entries else []
  }

  /** The callbacks processBranch makes for branch `b` whose inode is `node`. */
  function ExpandEventsAt(cbs: Callbacks, node: Option<Node>, b: Branch): seq<Event>
  {
    var rel := RelPath(b);
    var stat := StatOf(node);
    var lstat := if cbs.onLstat then [LstatEvent(true, rel, stat)] else [];
    if stat.StatErr? then lstat
    else
      var listing := ListingOf(node.value);
      var listed := if listing.Listed? then Infos(listing.entries) else [];
      var readDir := if cbs.onReadDir then [ReadDirEvent(rel, listed, listing.ListFailed?)] else [];
      if listing.ListFailed? then lstat + readDir
      else lstat + readDir + EntriesEvents(cbs, b, listing.entries)
  }

  function ExpandEvents(fs: Node, cbs: Callbacks, b: Branch): seq<Event>
  {
    ExpandEventsAt(cbs, NodeAt(fs, b), b)
  }

  function ExpandChildren(fs: Node, b: Branch): seq<Branch>
  {
    EntriesChildren(b, ProcessedEntries(NodeAt(fs, b)))
  }

  function ExpandError(fs: Node, rootPath: string, b: Branch): Option<WalkError>
  {
    var node := NodeAt(fs, b);
    if StatOf(node).StatErr? then Some(LstatFailed(AbsPath(b, rootPath)))
    else if ListingOf(node.value).ListFailed? then Some(ReadDirFailed(AbsPath(b, rootPath)))
    else None
  }

  /** A failed lstat or ReadDir is reported, and then nothing is pushed and no
      entry is visited; the lstat callback comes first and ReadDir is not
      attempted after a failed lstat. */
  lemma ErrorsStopTheBranch(fs: Node, cbs: Callbacks, rootPath: string, b: Branch)
    ensures ExpandError(fs, rootPath, b).Some? ==> ExpandChildren(fs, b) == []
    ensures StatOf(NodeAt(fs, b)).StatErr? ==>
      ExpandError(fs, rootPath, b) == Some(LstatFailed(AbsPath(b, rootPath))) &&
      ExpandEvents(fs, cbs, b) == (if cbs.onLstat then [LstatEvent(true, RelPath(b), StatErr)] else [])
    ensures ExpandError(fs, rootPath, b).Some? && ExpandError(fs, rootPath, b).value.ReadDirFailed? ==>
      ExpandEvents(fs, cbs, b) ==
        (if cbs.onLstat then [LstatEvent(true, RelPath(b), StatOf(NodeAt(fs, b)))] else []) +
        (if cbs.onReadDir then [ReadDirEvent(RelPath(b), [], true)] else [])
  {
  }

  /** Every callback for an entry carries the relative path of the branch the
      walk would push for that entry. */
  lemma EntryEventsPaths(cbs: Callbacks, b: Branch, e: Entry)
    ensures forall ev :: ev in EntryEvents(cbs, b, e) ==> ev.relPath == RelPath(Child(b, e.name))
    ensures e.name == ".snapshot" && IsDirEntry(e) ==> EntryEvents(cbs, b, e) == []
    ensures !IsDirEntry(e) && !cbs.onFileOrSymlink ==> EntryEvents(cbs, b, e) == []
    ensures !IsDirEntry(e) && cbs.onFileOrSymlink ==>
      EntryEvents(cbs, b, e) ==
        [FileOrSymlinkEvent(RelPath(Child(b, e.name)), InfoOf(e))] +
        (if cbs.onLstat then [LstatEvent(false, RelPath(Child(b, e.name)), e.node.stat)] else [])
  {
    ChildRelPathIsRelPath(b, e.name);
  }

  // ---------------------------------------------------------------------------
  // Work still to be done
  // ---------------------------------------------------------------------------

  function Emit(evs: seq<Event>): (obs: seq<Obs>)
    ensures |obs| == |evs| && forall i :: 0 <= i < |evs| ==> obs[i] == Emitted(evs[i])
  {
    seq(|evs|, i requires 0 <= i < |evs| => Emitted(evs[i]))
  }

  function EntriesOf(n: Node): seq<Entry>
  {
    ProcessedEntries(Some(n))
  }

  /** Everything the walk shows from processing branch `b` whose inode is `n`:
      its own expansion and callbacks, then the work of every pushed child. */
  ghost function WorkAt(cbs: Callbacks, n: Node, b: Branch): multiset<Obs>
    decreases n, 1, 0
  {
    multiset{Expanded(b)} + multiset(Emit(ExpandEventsAt(cbs, Some(n), b)))
      + EntriesWork(cbs, n, b, |EntriesOf(n)|)
  }

  ghost function EntriesWork(cbs: Callbacks, parent: Node, b: Branch, k: nat): multiset<Obs>
    requires k <= |EntriesOf(parent)|
    decreases parent, 0, k
  {
    if k == 0 then multiset{}
    else
      var e := EntriesOf(parent)[k - 1];
      assert e.node < parent by {
        assert parent.kind.Directory? && parent.kind.listing.Listed?;
        assert e in parent.kind.listing.entries;
      }
      EntriesWork(cbs, parent, b, k - 1) + (if Descends(e) then WorkAt(cbs, e.node, Child(b, e.name)) else multiset{})
  }

  /** The work of a branch in the tree `fs`. */
  ghost function WorkOf(fs: Node, cbs: Callbacks, b: Branch): multiset<Obs>
  {
    match NodeAt(fs, b)
    case None => multiset{Expanded(b)} + multiset(Emit(ExpandEventsAt(cbs, None, b)))
    case Some(n) => WorkAt(cbs, n, b)
  }

  /** The work of every branch, as a function. */
  ghost function Work(fs: Node, cbs: Callbacks): Branch -> multiset<Obs>
  {
    b => WorkOf(fs, cbs, b)
  }

  /** The total weight of a queue of branches under `w`. */
  ghost function SumOver(w: Branch -> multiset<Obs>, q: seq<Branch>): multiset<Obs>
    decreases |q|
  {
    if q == [] then multiset{} else w(q[0]) + SumOver(w, q[1..])
  }

  /** The total weight of all queues under `w`. */
  ghost function SumQueues(w: Branch -> multiset<Obs>, qs: seq<seq<Branch>>): multiset<Obs>
    decreases |qs|
  {
    if qs == [] then multiset{} else SumOver(w, qs[0]) + SumQueues(w, qs[1..])
  }

  lemma {:induction false} SumOverAppend(w: Branch -> multiset<Obs>, a: seq<Branch>, c: seq<Branch>)
    ensures SumOver(w, a + c) == SumOver(w, a) + SumOver(w, c)
    decreases |a|
  {
    if a == [] {
      assert a + c == c;
    } else {
      assert (a + c)[0] == a[0];
      assert (a + c)[1..] == a[1..] + c;
      SumOverAppend(w, a[1..], c);
      var l := SumOver(w, a + c);
      var r := SumOver(w, a) + SumOver(w, c);
      forall o ensures l[o] == r[o] {
        assert SumOver(w, a[1..] + c)[o] == (SumOver(w, a[1..]) + SumOver(w, c))[o];
      }
    }
  }

  lemma SumOverSingle(w: Branch -> multiset<Obs>, x: Branch)
    ensures SumOver(w, [x]) == w(x)
  {
    assert [x][1..] == [];
  }

  lemma {:induction false} SumQueuesUpdate(w: Branch -> multiset<Obs>, qs: seq<seq<Branch>>, i: nat, x: seq<Branch>)
    requires i < |qs|
    ensures SumQueues(w, qs[i := x]) + SumOver(w, qs[i]) == SumQueues(w, qs) + SumOver(w, x)
    decreases |qs|
  {
    var qs' := qs[i := x];
    var l := SumQueues(w, qs') + SumOver(w, qs[i]);
    var rhs := SumQueues(w, qs) + SumOver(w, x);
    if i == 0 {
      assert qs'[1..] == qs[1..];
      forall o ensures l[o] == rhs[o] { }
    } else {
      var r := qs[1..];
      assert qs'[1..] == r[i - 1 := x];
      assert qs'[0] == qs[0] && r[i - 1] == qs[i];
      SumQueuesUpdate(w, r, i - 1, x);
      forall o ensures l[o] == rhs[o] {
        assert (SumQueues(w, r[i - 1 := x]) + SumOver(w, r[i - 1]))[o] == (SumQueues(w, r) + SumOver(w, x))[o];
      }
    }
  }

  lemma {:induction false} SumQueuesOfEmpty(w: Branch -> multiset<Obs>, qs: seq<seq<Branch>>)
    requires forall i :: 0 <= i < |qs| ==> qs[i] == []
    ensures SumQueues(w, qs) == multiset{}
    decreases |qs|
  {
    if qs != [] {
      SumQueuesOfEmpty(w, qs[1..]);
    }
  }

  /** processBranch's work splits into its own expansion and the work of the
      branches it pushes: the unfolding that makes the pool's accounting exact. */
  lemma WorkUnfold(fs: Node, cbs: Callbacks, b: Branch)
    requires ValidTree(fs)
    ensures WorkOf(fs, cbs, b) ==
      multiset{Expanded(b)} + multiset(Emit(ExpandEvents(fs, cbs, b))) + SumOver(Work(fs, cbs), ExpandChildren(fs, b))
  {
    match NodeAt(fs, b)
    case None =>
      assert ExpandChildren(fs, b) == [];
    case Some(n) =>
      LookupValid(fs, RelPathElems(b));
      EntriesWorkIsChildrenWork(fs, cbs, n, b, |EntriesOf(n)|);
      assert EntriesOf(n)[..|EntriesOf(n)|] == EntriesOf(n);
  }

  lemma {:induction false} EntriesWorkIsChildrenWork(fs: Node, cbs: Callbacks, n: Node, b: Branch, k: nat)
    requires NodeAt(fs, b) == Some(n) && ValidTree(n)
    requires k <= |EntriesOf(n)|
    ensures EntriesWork(cbs, n, b, k) == SumOver(Work(fs, cbs), EntriesChildren(b, EntriesOf(n)[..k]))
  {
    var es := EntriesOf(n);
    if k == 0 {
      assert es[..0] == [];
    } else {
      EntriesWorkIsChildrenWork(fs, cbs, n, b, k - 1);
      var e := es[k - 1];
      assert es[..k][..k - 1] == es[..k - 1];
      var pushed := if Descends(e) then [Child(b, e.name)] else [];
      assert EntriesChildren(b, es[..k]) == EntriesChildren(b, es[..k - 1]) + pushed;
      SumOverAppend(Work(fs, cbs), EntriesChildren(b, es[..k - 1]), pushed);
      if Descends(e) {
        LookupChild(fs, RelPathElems(b), n, k - 1);
        assert NodeAt(fs, Child(b, e.name)) == Some(e.node);
        assert SumOver(Work(fs, cbs), pushed) == WorkOf(fs, cbs, Child(b, e.name));
      }
    }
  }

  // ---------------------------------------------------------------------------
  // stealWork
  // ---------------------------------------------------------------------------

  /** The first worker after `from`, other than the thief, holding more than one item. */
  function FirstVictim(qs: seq<seq<Branch>>, thief: nat, from: nat): (v: Option<nat>)
    requires from <= |qs|
    ensures v.Some? ==> from <= v.value < |qs| && v.value != thief && |qs[v.value]| > 1
    ensures v.Some? ==> forall j :: from <= j < v.value && j != thief ==> |qs[j]| <= 1
    ensures v.None? ==> forall j :: from <= j < |qs| && j != thief ==> |qs[j]| <= 1
    decreases |qs| - from
  {
    if from == |qs| then None
    else if from != thief && |qs[from]| > 1 then Some(from)
    else FirstVictim(qs, thief, from + 1)
  }

  /** The outcome of a steal: whether it succeeded and the queues afterwards. */
  datatype Steal = Steal(stolen: bool, queues: seq<seq<Branch>>)

  /** `qs` with the last item of queue `from` moved to the end of queue `to`. */
  function MoveLast(qs: seq<seq<Branch>>, from: nat, to: nat): (r: seq<seq<Branch>>)
    requires from < |qs| && to < |qs| && from != to && qs[from] != []
    ensures |r| == |qs|
  {
    qs[from := qs[from][..|qs[from]| - 1]][to := qs[to] + [qs[from][|qs[from]| - 1]]]
  }

  /** The work-stealing rule: the thief takes the last item of the first other
      worker, in index order, whose queue holds more than one item; when there
      is none nothing changes. */
  function StealRule(qs: seq<seq<Branch>>, thief: nat): (s: Steal)
    requires thief < |qs|
    ensures |s.queues| == |qs|
    ensures s.stolen <==> exists j :: 0 <= j < |qs| && j != thief && |qs[j]| > 1
    ensures !s.stolen ==> s.queues == qs
    ensures s.stolen ==>
      exists v :: && 0 <= v < |qs| && v != thief && |qs[v]| > 1
                  && (forall j :: 0 <= j < v && j != thief ==> |qs[j]| <= 1)
                  && s.queues == MoveLast(qs, v, thief)
  {
    match FirstVictim(qs, thief, 0)
    case None => Steal(false, qs)
    case Some(v) => Steal(true, MoveLast(qs, v, thief))
  }

  /** All queued items in worker order. */
  function Flatten(qs: seq<seq<Branch>>): seq<Branch>
    decreases |qs|
  {
    if qs == [] then [] else qs[0] + Flatten(qs[1..])
  }

  lemma {:induction false} FlattenUpdate(qs: seq<seq<Branch>>, i: nat, x: seq<Branch>)
    requires i < |qs|
    ensures multiset(Flatten(qs[i := x])) + multiset(qs[i]) == multiset(Flatten(qs)) + multiset(x)
    decreases |qs|
  {
    var qs' := qs[i := x];
    var l := multiset(Flatten(qs')) + multiset(qs[i]);
    var rhs := multiset(Flatten(qs)) + multiset(x);
    if i == 0 {
      assert qs'[1..] == qs[1..];
      forall o ensures l[o] == rhs[o] { }
    } else {
      var r := qs[1..];
      assert qs'[1..] == r[i - 1 := x];
      assert qs'[0] == qs[0] && r[i - 1] == qs[i];
      FlattenUpdate(r, i - 1, x);
      forall o ensures l[o] == rhs[o] {
        assert (multiset(Flatten(r[i - 1 := x])) + multiset(r[i - 1]))[o] == (multiset(Flatten(r)) + multiset(x))[o];
      }
    }
  }

  /** Moving one item between queues loses and duplicates nothing. */
  lemma MoveKeepsItems(qs: seq<seq<Branch>>, from: nat, to: nat)
    requires from < |qs| && to < |qs| && from != to && qs[from] != []
    ensures multiset(Flatten(MoveLast(qs, from, to))) == multiset(Flatten(qs))
  {
    var qv := qs[from];
    var rest := qv[..|qv| - 1];
    var x := qv[|qv| - 1];
    var qs1 := qs[from := rest];
    assert rest + [x] == qv;
    FlattenUpdate(qs, from, rest);
    assert qs1[to] == qs[to];
    FlattenUpdate(qs1, to, qs[to] + [x]);
    var f2, f1, f := multiset(Flatten(MoveLast(qs, from, to))), multiset(Flatten(qs1)), multiset(Flatten(qs));
    forall o ensures f2[o] == f[o] {
      assert (f1 + multiset(qv))[o] == (f + multiset(rest))[o];
      assert (f2 + multiset(qs[to]))[o] == (f1 + multiset(qs[to] + [x]))[o];
      assert multiset(qv)[o] == (multiset(rest) + multiset{x})[o];
      assert multiset(qs[to] + [x])[o] == (multiset(qs[to]) + multiset{x})[o];
    }
  }

  /** A steal loses and duplicates no queued branch, and every other non-empty
      queue, the victim's included, stays non-empty. */
  lemma StealKeepsItems(qs: seq<seq<Branch>>, thief: nat)
    requires thief < |qs|
    ensures multiset(Flatten(StealRule(qs, thief).queues)) == multiset(Flatten(qs))
    ensures forall j :: 0 <= j < |qs| && j != thief && qs[j] != [] ==> StealRule(qs, thief).queues[j] != []
  {
    match FirstVictim(qs, thief, 0)
    case None =>
    case Some(v) =>
      MoveKeepsItems(qs, v, thief);
  }

  // ---------------------------------------------------------------------------
  // The pool of workers
  // ---------------------------------------------------------------------------

  /** The queues of the workers, which of them have exited, and what the walk
      has shown so far. */
  datatype Pool = Pool(queues: seq<seq<Branch>>, finished: seq<bool>, log: seq<Obs>)

  /** The pool after Run has created `n` workers and pushed the root onto the first. */
  function Initial(n: nat): Pool
    requires n >= 1
  {
    Pool([[Root]] + seq(n - 1, _ => []), seq(n, _ => false), [])
  }

  /** One iteration of startWorker's loop for worker `w`: pop the last branch
      and process it; with an empty queue, steal, and exit when that fails. */
  function Step(fs: Node, cbs: Callbacks, p: Pool, w: nat): Pool
    requires w < |p.queues| && |p.finished| == |p.queues|
  {
    var q := p.queues[w];
    if q != [] then
      var b := q[|q| - 1];
      Pool(p.queues[w := q[..|q| - 1] + ExpandChildren(fs, b)], p.finished,
           p.log + [Expanded(b)] + Emit(ExpandEvents(fs, cbs, b)))
    else
      var s := StealRule(p.queues, w);
      if s.stolen then p.(queues := s.queues) else p.(finished := p.finished[w := true])
  }

  /** The pool invariant: exited workers hold nothing, and what has been shown
      plus the work of everything queued is exactly the work of the root. */
  ghost predicate Inv(fs: Node, cbs: Callbacks, p: Pool)
  {
    && |p.finished| == |p.queues| >= 1
    && (forall w :: 0 <= w < |p.queues| && p.finished[w] ==> p.queues[w] == [])
    && multiset(p.log) + SumQueues(Work(fs, cbs), p.queues) == WorkOf(fs, cbs, Root)
  }

  lemma InitialInv(fs: Node, cbs: Callbacks, n: nat)
    requires n >= 1
    ensures Inv(fs, cbs, Initial(n))
  {
    var qs := Initial(n).queues;
    assert qs[0] == [Root];
    assert qs[1..] == seq(n - 1, _ => []);
    SumQueuesOfEmpty(Work(fs, cbs), qs[1..]);
    SumOverSingle(Work(fs, cbs), Root);
    var l := multiset(Initial(n).log) + SumQueues(Work(fs, cbs), qs);
    forall o ensures l[o] == WorkOf(fs, cbs, Root)[o] { }
  }

  /** Equal sums with a common part have equal remainders. */
  lemma MultisetCancel(a: multiset<Obs>, b: multiset<Obs>, c: multiset<Obs>)
    requires a + c == b + c
    ensures a == b
  {
    forall o ensures a[o] == b[o] {
      assert (a + c)[o] == (b + c)[o];
    }
  }

  /** Taking the last branch off queue `i` takes its work off the pool. */
  lemma SumQueuesDropLast(w: Branch -> multiset<Obs>, qs: seq<seq<Branch>>, i: nat)
    requires i < |qs| && qs[i] != []
    ensures SumQueues(w, qs) == SumQueues(w, qs[i := qs[i][..|qs[i]| - 1]]) + w(qs[i][|qs[i]| - 1])
  {
    var q := qs[i];
    var rest, x := q[..|q| - 1], q[|q| - 1];
    assert rest + [x] == q;
    SumOverAppend(w, rest, [x]);
    SumOverSingle(w, x);
    SumQueuesUpdate(w, qs, i, rest);
    var a, b := SumQueues(w, qs), SumQueues(w, qs[i := rest]) + w(x);
    assert SumQueues(w, qs[i := rest]) + SumOver(w, rest) + w(x) == a + SumOver(w, rest);
    MultisetCancel(a, b, SumOver(w, rest));
  }

  /** Appending branches to queue `i` adds their work to the pool. */
  lemma SumQueuesAppend(w: Branch -> multiset<Obs>, qs: seq<seq<Branch>>, i: nat, cs: seq<Branch>)
    requires i < |qs|
    ensures SumQueues(w, qs[i := qs[i] + cs]) == SumQueues(w, qs) + SumOver(w, cs)
  {
    SumOverAppend(w, qs[i], cs);
    SumQueuesUpdate(w, qs, i, qs[i] + cs);
    MultisetCancel(SumQueues(w, qs[i := qs[i] + cs]), SumQueues(w, qs) + SumOver(w, cs), SumOver(w, qs[i]));
  }

  /** Popping the last branch `b` of queue `i` and pushing `cs` trades the
      weight of `b` for whatever `b`'s weight holds besides that of `cs`. */
  lemma PopAccounting(w: Branch -> multiset<Obs>, qs: seq<seq<Branch>>, i: nat, cs: seq<Branch>, shown: multiset<Obs>)
    requires i < |qs| && qs[i] != []
    requires w(qs[i][|qs[i]| - 1]) == shown + SumOver(w, cs)
    ensures SumQueues(w, qs[i := qs[i][..|qs[i]| - 1] + cs]) + shown == SumQueues(w, qs)
  {
    var qs1 := qs[i := qs[i][..|qs[i]| - 1]];
    SumQueuesDropLast(w, qs, i);
    SumQueuesAppend(w, qs1, i, cs);
    assert qs1[i := qs1[i] + cs] == qs[i := qs[i][..|qs[i]| - 1] + cs];
  }

  /** Moving one branch between queues keeps the total weight. */
  lemma MoveKeepsWeight(w: Branch -> multiset<Obs>, qs: seq<seq<Branch>>, from: nat, to: nat)
    requires from < |qs| && to < |qs| && from != to && qs[from] != []
    ensures SumQueues(w, MoveLast(qs, from, to)) == SumQueues(w, qs)
  {
    var qs1 := qs[from := qs[from][..|qs[from]| - 1]];
    var x := qs[from][|qs[from]| - 1];
    SumQueuesDropLast(w, qs, from);
    SumQueuesAppend(w, qs1, to, [x]);
    SumOverSingle(w, x);
    assert qs1[to := qs1[to] + [x]] == MoveLast(qs, from, to);
  }


  lemma PopPreservesInv(fs: Node, cbs: Callbacks, p: Pool, w: nat)
    requires ValidTree(fs) && Inv(fs, cbs, p)
    requires w < |p.queues| && p.queues[w] != []
    ensures Inv(fs, cbs, Step(fs, cbs, p, w))
  {
    var q := p.queues[w];
    var b := q[|q| - 1];
    var evs := Emit(ExpandEvents(fs, cbs, b));
    var shown := multiset{Expanded(b)} + multiset(evs);
    var p' := Step(fs, cbs, p, w);
    assert p'.log == p.log + ([Expanded(b)] + evs);
    WorkUnfold(fs, cbs, b);
    PopAccounting(Work(fs, cbs), p.queues, w, ExpandChildren(fs, b), shown);
    var sq' := SumQueues(Work(fs, cbs), p'.queues);
    var sq := SumQueues(Work(fs, cbs), p.queues);
    forall o ensures (multiset(p'.log) + sq')[o] == WorkOf(fs, cbs, Root)[o] {
      assert (multiset(p.log) + sq)[o] == WorkOf(fs, cbs, Root)[o];
      assert (sq' + shown)[o] == sq[o];
      assert multiset(p'.log)[o] == (multiset(p.log) + shown)[o];
    }
  }

  /** Every step keeps the invariant: no branch is lost or duplicated. */
  lemma StepPreservesInv(fs: Node, cbs: Callbacks, p: Pool, w: nat)
    requires ValidTree(fs) && Inv(fs, cbs, p)
    requires w < |p.queues| && !p.finished[w]
    ensures Inv(fs, cbs, Step(fs, cbs, p, w))
  {
    if p.queues[w] != [] {
      PopPreservesInv(fs, cbs, p, w);
    } else {
      match FirstVictim(p.queues, w, 0)
      case None =>
      case Some(v) =>
        MoveKeepsWeight(Work(fs, cbs), p.queues, v, w);
    }
  }

  function CountTrue(f: seq<bool>): nat
    decreases |f|
  {
    if f == [] then 0 else (if f[0] then 1 else 0) + CountTrue(f[1..])
  }

  lemma {:induction false} CountTrueClear(f: seq<bool>, i: nat)
    requires i < |f| && f[i]
    ensures CountTrue(f[i := false]) == CountTrue(f) - 1
    decreases |f|
  {
    if i == 0 {
      assert f[i := false][1..] == f[1..];
    } else {
      assert f[i := false][1..] == f[1..][i - 1 := false];
      CountTrueClear(f[1..], i - 1);
    }
  }

  /** For each worker: still running with nothing in its queue. */
  function IdleFlags(p: Pool): (f: seq<bool>)
    requires |p.finished| == |p.queues|
    ensures |f| == |p.queues|
    ensures forall i :: 0 <= i < |f| ==> f[i] == (!p.finished[i] && p.queues[i] == [])
  {
    seq(|p.queues|, i requires 0 <= i < |p.queues| => !p.finished[i] && p.queues[i] == [])
  }

  function IdleCount(p: Pool): nat
    requires |p.finished| == |p.queues|
  {
    CountTrue(IdleFlags(p))
  }

  /** Processing a branch consumes queued work. */
  lemma PopProgress(fs: Node, cbs: Callbacks, p: Pool, w: nat)
    requires ValidTree(fs) && Inv(fs, cbs, p)
    requires w < |p.queues| && p.queues[w] != []
    ensures |SumQueues(Work(fs, cbs), Step(fs, cbs, p, w).queues)| < |SumQueues(Work(fs, cbs), p.queues)|
  {
    var p' := Step(fs, cbs, p, w);
    PopPreservesInv(fs, cbs, p, w);
    assert |p'.log| > |p.log|;
    assert |multiset(p'.log)| + |SumQueues(Work(fs, cbs), p'.queues)| == |WorkOf(fs, cbs, Root)|;
    assert |multiset(p.log)| + |SumQueues(Work(fs, cbs), p.queues)| == |WorkOf(fs, cbs, Root)|;
  }

  /** An idle worker that exits stops being idle; nobody else changes. */
  lemma ExitFlags(p: Pool, w: nat)
    requires |p.finished| == |p.queues| && w < |p.queues|
    ensures IdleFlags(p.(finished := p.finished[w := true])) == IdleFlags(p)[w := false]
  {
  }

  /** An idle thief that steals stops being idle, and the victim, which keeps
      at least one item, was not idle and stays so. */
  lemma StealFlags(p: Pool, v: nat, w: nat)
    requires |p.finished| == |p.queues| && v < |p.queues| && w < |p.queues| && v != w
    requires |p.queues[v]| > 1
    ensures IdleFlags(p.(queues := MoveLast(p.queues, v, w))) == IdleFlags(p)[w := false]
  {
  }

  /** A worker with an empty queue either steals or exits; both keep the
      queued work and turn that idle worker into a busy or exited one. */
  lemma IdleProgress(fs: Node, cbs: Callbacks, p: Pool, w: nat)
    requires Inv(fs, cbs, p)
    requires w < |p.queues| && p.queues[w] == [] && !p.finished[w]
    ensures var p' := Step(fs, cbs, p, w);
      |p'.finished| == |p'.queues| &&
      SumQueues(Work(fs, cbs), p'.queues) == SumQueues(Work(fs, cbs), p.queues) &&
      IdleCount(p') < IdleCount(p)
  {
    CountTrueClear(IdleFlags(p), w);
    match FirstVictim(p.queues, w, 0)
    case None =>
      assert Step(fs, cbs, p, w) == p.(finished := p.finished[w := true]);
      ExitFlags(p, w);
    case Some(v) =>
      assert Step(fs, cbs, p, w) == p.(queues := MoveLast(p.queues, v, w));
      StealFlags(p, v, w);
      MoveKeepsWeight(Work(fs, cbs), p.queues, v, w);
  }

  /** Every step makes progress: it either consumes queued work or turns an
      idle running worker into a busy or exited one. */
  lemma StepProgress(fs: Node, cbs: Callbacks, p: Pool, w: nat)
    requires ValidTree(fs) && Inv(fs, cbs, p)
    requires w < |p.queues| && !p.finished[w]
    ensures var p' := Step(fs, cbs, p, w);
      |p'.finished| == |p'.queues| &&
      (|SumQueues(Work(fs, cbs), p'.queues)| < |SumQueues(Work(fs, cbs), p.queues)| ||
       (|SumQueues(Work(fs, cbs), p'.queues)| == |SumQueues(Work(fs, cbs), p.queues)| && IdleCount(p') < IdleCount(p)))
  {
    if p.queues[w] != [] {
      PopProgress(fs, cbs, p, w);
    } else {
      IdleProgress(fs, cbs, p, w);
    }
  }

  /** When every worker has exited, the walk has shown exactly the work of the root. */
  lemma FinishedShowsAllWork(fs: Node, cbs: Callbacks, p: Pool)
    requires Inv(fs, cbs, p)
    requires forall w :: 0 <= w < |p.finished| ==> p.finished[w]
    ensures multiset(p.log) == WorkOf(fs, cbs, Root)
  {
    SumQueuesOfEmpty(Work(fs, cbs), p.queues);
    var sq := SumQueues(Work(fs, cbs), p.queues);
    var shown, all := multiset(p.log), WorkOf(fs, cbs, Root);
    forall o ensures shown[o] == all[o] {
      assert (shown + sq)[o] == all[o];
      assert sq[o] == 0;
    }
    assert shown == all;
  }
}
