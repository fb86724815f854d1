/** The Walker and its workers (cwalk.go) as classes whose methods update
    their fields in place. Goroutines become a sequential interleaving: Run
    repeatedly lets some running worker take one iteration of its loop. */
module Cwalk {
  import opened Wrappers
  import opened Fs
  import opened Branches
  import opened WalkSpec
  import opened WalkTheorems

  /** NewWalker's worker count: a count of zero or less becomes one. */
  function NormalizeWorkers(n: int): (m: nat)
    ensures m >= 1
    ensures n > 0 ==> m == n
    ensures n <= 0 ==> m == 1
  {
    if n <= 0 then 1 else n
  }

  /** The queues of a list of workers, in order. */
  ghost function QueuesOf(ws: seq<Worker>): (qs: seq<seq<Branch>>)
    reads ws
    ensures |qs| == |ws| && forall i :: 0 <= i < |ws| ==> qs[i] == ws[i].queue
  {
    if ws == [] then [] else [ws[0].queue] + QueuesOf(ws[1..])
  }

  lemma QueuesOfIs(ws: seq<Worker>, qs: seq<seq<Branch>>)
    requires |qs| == |ws| && forall i :: 0 <= i < |ws| ==> ws[i].queue == qs[i]
    ensures QueuesOf(ws) == qs
  {
  }

  /** walkWorker: an id, its walker and a LIFO queue of branches. */
  class Worker {
    const id: nat
    const walker: Walker
    var queue: seq<Branch>

    constructor (id: nat, walker: Walker)
      ensures this.id == id && this.walker == walker && queue == []
    {
      this.id := id;
      this.walker := walker;
      queue := [];
    }

    /** queueLen. */
    method QueueLen() returns (n: nat)
      ensures n == |queue|
    {
      n := |queue|;
    }

    /** queuePush: append at the end. */
    method QueuePush(item: Branch)
      modifies this
      ensures queue == old(queue) + [item]
    {
      queue := queue + [item];
    }

    /** queuePop: remove and return the last item; nothing (nil) when empty. */
    method QueuePop() returns (item: Option<Branch>)
      modifies this
      ensures old(queue) == [] ==> item == None && queue == []
      ensures old(queue) != [] ==>
        item == Some(old(queue)[|old(queue)| - 1]) && queue == old(queue)[..|old(queue)| - 1]
    {
      if |queue| > 0 {
        item := Some(queue[|queue| - 1]);
        queue := queue[..|queue| - 1];
      } else {
        item := None;
      }
    }

    /** The loop of processBranch over the listed entries, in listing order:
        the callbacks made for each entry, and a push for every sub-directory
        other than ".snapshot". */
    method ProcessEntries(branch: Branch, relPath: string, entries: seq<Entry>) returns (events: seq<Event>)
      requires relPath == RelPath(branch)
      modifies this
      ensures queue == old(queue) + EntriesChildren(branch, entries)
      ensures events == EntriesEvents(walker.callbacks, branch, entries)
    {
      events := [];
      var i := 0;
      while i < |entries|
        invariant 0 <= i <= |entries|
        invariant events == EntriesEvents(walker.callbacks, branch, entries[..i])
        invariant queue == old(queue) + EntriesChildren(branch, entries[..i])
      {
        ghost var pushed := queue;
        var more := ProcessEntry(branch, relPath, entries[i]);
        EntriesSnoc(walker.callbacks, branch, entries, i);
        AppendAssoc(old(queue), EntriesChildren(branch, entries[..i]), queue[|pushed|..]);
        events := events + more;
        i := i + 1;
      }
      assert entries[..|entries|] == entries;
    }

    /** One iteration of that loop: ".snapshot" directories are skipped, a
        directory is reported (OnDirectory) and pushed, anything else is
        reported (OnFileOrSymlink) and lstat'ed (OnLstat). */
    method ProcessEntry(branch: Branch, relPath: string, entry: Entry) returns (events: seq<Event>)
      requires relPath == RelPath(branch)
      modifies this
      ensures queue == old(queue) + (if Descends(entry) then [Child(branch, entry.name)] else [])
      ensures events == EntryEvents(walker.callbacks, branch, entry)
    {
      var cbs := walker.callbacks;
      var name := entry.name;
      events := [];
      if IsDirEntry(entry) && name == ".snapshot" {
        return;
      }
      var childRelPath := if !IsRoot(branch) then relPath + "/" + name else name;
      if IsDirEntry(entry) {
        if cbs.onDirectory {
          events := [DirectoryEvent(childRelPath, InfoOf(entry))];
        }
        QueuePush(Child(branch, name));
      } else if cbs.onFileOrSymlink {
        events := [FileOrSymlinkEvent(childRelPath, InfoOf(entry))];
        // os.Lstat(filepath.Join(absPath, name)) reaches the listed inode
        var entryInfo := entry.node.stat;
        if cbs.onLstat {
          events := events + [LstatEvent(false, childRelPath, entryInfo)];
        }
      }
    }

    /** processBranch: lstat the branch, list it, make the callbacks for each
        entry in listing order and push every sub-directory other than
        ".snapshot" onto this worker's own queue. The callbacks made are
        returned in order. */
    method ProcessBranch(fs: Node, branch: Branch) returns (events: seq<Event>, err: Option<WalkError>)
      modifies this
      ensures queue == old(queue) + ExpandChildren(fs, branch)
      ensures events == ExpandEvents(fs, walker.callbacks, branch)
      ensures err == ExpandError(fs, walker.rootPath, branch)
    {
      var cbs := walker.callbacks;
      var absPath := AbsPath(branch, walker.rootPath);
      var relPath := RelPath(branch);

      // os.Lstat(absPath)
      var node := NodeAt(fs, branch);
      var info := StatOf(node);
      events := [];
      if cbs.onLstat {
        events := events + [LstatEvent(true, relPath, info)];
      }
      if info.StatErr? {
        return events, Some(LstatFailed(absPath));
      }

      // os.ReadDir(absPath)
      var listing := ListingOf(node.value);
      if cbs.onReadDir {
        var listed := if listing.Listed? then Infos(listing.entries) else [];
        events := events + [ReadDirEvent(relPath, listed, listing.ListFailed?)];
      }
      if listing.ListFailed? {
        return events, Some(ReadDirFailed(absPath));
      }

      var entryEvents := ProcessEntries(branch, relPath, listing.entries);
      events := events + entryEvents;
      return events, None;
    }
  }

  /** Walker: the root path, the callbacks, and the pool of workers. `finished`
      records which workers have returned (the WaitGroup); `trace` records the
      start of every processBranch and every callback, in order. */
  class Walker {
    const rootPath: string
    const callbacks: Callbacks
    const numWorkers: nat
    var workers: seq<Worker>
    var finished: seq<bool>
    var trace: seq<Obs>
    var cancelled: bool

    ghost predicate Valid()
      reads this
    {
      && numWorkers >= 1
      && |finished| == |workers|
      && (forall i :: 0 <= i < |workers| ==> workers[i].id == i && workers[i].walker == this)
    }

    ghost function Queues(): seq<seq<Branch>>
      reads this, workers
    {
      QueuesOf(workers)
    }

    /** The walker as a pool of queues. */
    ghost function State(): Pool
      reads this, workers
    {
      Pool(Queues(), finished, trace)
    }

    /** NewWalker. */
    constructor (rootPath: string, numWorkers: int, callbacks: Callbacks)
      ensures Valid()
      ensures this.rootPath == rootPath && this.callbacks == callbacks
      ensures this.numWorkers == NormalizeWorkers(numWorkers)
      ensures workers == [] && finished == [] && trace == [] && !cancelled
    {
      var n := numWorkers;
      if n <= 0 {
        n := 1;
      }
      this.rootPath := rootPath;
      this.callbacks := callbacks;
      this.numWorkers := n;
      workers := [];
      finished := [];
      trace := [];
      cancelled := false;
    }

    /** stealWork: scan the other workers in order and move the last item of
        the first one holding more than one item onto the thief's queue. */
    method StealWork(thief: Worker) returns (stolen: bool)
      requires Valid() && thief.id < |workers| && workers[thief.id] == thief
      modifies workers
      ensures Queues() == StealRule(old(Queues()), thief.id).queues
      ensures stolen == StealRule(old(Queues()), thief.id).stolen
    {
      var v := FindVictim(thief);
      if v.Some? {
        stolen := TakeLast(workers[v.value], thief);
      } else {
        stolen := false;
      }
    }

    /** The scan of stealWork: the first other worker, in index order, whose
        queue holds more than one item. */
    method FindVictim(thief: Worker) returns (v: Option<nat>)
      requires Valid() && thief.id < |workers| && workers[thief.id] == thief
      ensures v == FirstVictim(Queues(), thief.id, 0)
    {
      ghost var qs := Queues();
      var i := 0;
      while i < |workers|
        invariant 0 <= i <= |workers|
        invariant forall j :: 0 <= j < i && j != thief.id ==> |qs[j]| <= 1
      {
        var victim := workers[i];
        if victim.id != thief.id {
          var qlen := victim.QueueLen();
          if qlen > 1 {
            assert FirstVictim(qs, thief.id, 0) == Some(i);
            return Some(i);
          }
        }
        i := i + 1;
      }
      assert FirstVictim(qs, thief.id, 0) == None;
      return None;
    }

    /** The body of a successful steal: pop the victim's last item and, when
        there is one, push it onto the thief's queue. */
    method TakeLast(victim: Worker, thief: Worker) returns (moved: bool)
      requires Valid() && victim.id < |workers| && workers[victim.id] == victim
      requires thief.id < |workers| && workers[thief.id] == thief && victim != thief && |victim.queue| > 1
      modifies victim, thief
      ensures moved && Queues() == MoveLast(old(Queues()), victim.id, thief.id)
    {
      ghost var qs := Queues();
      var item := victim.QueuePop();
      assert forall j :: 0 <= j < |workers| && j != victim.id ==> workers[j].queue == qs[j];
      moved := false;
      if item.Some? {
        thief.QueuePush(item.value);
        moved := true;
        ghost var after := MoveLast(qs, victim.id, thief.id);
        assert forall j :: 0 <= j < |workers| && j != victim.id && j != thief.id ==> workers[j].queue == after[j];
        assert workers[victim.id].queue == after[victim.id];
        assert workers[thief.id].queue == after[thief.id];
        QueuesOfIs(workers, after);
      }
    }

    /** One iteration of startWorker's loop: process the popped branch (an
        error is only logged), or steal, or exit when there is nothing to steal. */
    method WorkerStep(fs: Node, worker: Worker) returns (exited: bool)
      requires Valid() && worker.id < |workers| && workers[worker.id] == worker && !finished[worker.id]
      modifies this, workers
      ensures Valid() && workers == old(workers)
      ensures State() == Step(fs, callbacks, old(State()), worker.id)
      ensures exited == State().finished[worker.id]
    {
      ghost var qs := Queues();
      ghost var w := worker.id;
      ghost var ws := workers;
      ghost var next := Step(fs, callbacks, State(), w);
      exited := false;
      var branch := worker.QueuePop();
      assert workers == ws;
      assert forall j :: 0 <= j < |workers| && j != w ==> workers[j].queue == qs[j];
      if branch.Some? {
        var b := branch.value;
        assert next.queues == qs[w := qs[w][..|qs[w]| - 1] + ExpandChildren(fs, b)];
        assert next.log == trace + [Expanded(b)] + Emit(ExpandEvents(fs, callbacks, b));
        var events, err := worker.ProcessBranch(fs, b);
        assert workers == ws;
        trace := trace + [Expanded(b)] + Emit(events);
        assert forall j :: 0 <= j < |workers| && j != w ==> workers[j].queue == qs[j];
        QueuesOfIs(workers, next.queues);
        assert State() == next;
      } else {
        QueuesOfIs(workers, qs);
        exited := StealOrExit(fs, worker);
      }
    }

    /** The rest of startWorker's iteration when the worker's own queue is
        empty: steal, and exit when nothing could be stolen. */
    method StealOrExit(fs: Node, worker: Worker) returns (exited: bool)
      requires Valid() && worker.id < |workers| && workers[worker.id] == worker && !finished[worker.id]
      requires worker.queue == []
      modifies this, workers
      ensures Valid() && workers == old(workers)
      ensures State() == Step(fs, callbacks, old(State()), worker.id)
      ensures exited == State().finished[worker.id]
    {
      ghost var qs := Queues();
      ghost var w := worker.id;
      ghost var ws := workers;
      ghost var s := StealRule(qs, w);
      ghost var next := Step(fs, callbacks, State(), w);
      assert next == if s.stolen then Pool(s.queues, finished, trace) else Pool(qs, finished[w := true], trace);
      exited := false;
      var stolen := StealWork(worker);
      assert workers == ws;
      assert stolen == s.stolen && Queues() == s.queues;
      if !stolen {
        finished := finished[worker.id := true];
        exited := true;
      }
      assert State() == next;
    }

    /** startWorker: run one worker's loop until it exits. */
    method StartWorker(fs: Node, worker: Worker)
      requires ValidTree(fs) && Valid() && worker.id < |workers| && workers[worker.id] == worker
      requires Inv(fs, callbacks, State())
      modifies this, workers
      ensures Valid() && workers == old(workers) && Inv(fs, callbacks, State())
      ensures finished[worker.id]
    {
      while !finished[worker.id]
        invariant Valid() && workers == old(workers) && Inv(fs, callbacks, State())
        decreases |SumQueues(Work(fs, callbacks), Queues())|, IdleCount(State())
      {
        ghost var before := State();
        StepProgress(fs, callbacks, before, worker.id);
        StepPreservesInv(fs, callbacks, before, worker.id);
        var exited := WorkerStep(fs, worker);
      }
    }

    /** Run: create the workers, push the root onto the first one, and let
        running workers take steps until all of them have exited. The walk
        then shows exactly the work of the root: each reachable directory is
        processed once. */
    method Run(fs: Node) returns (err: Option<WalkError>)
      requires ValidTree(fs)
      requires Valid() && workers == [] && trace == []
      modifies this
      ensures err == None
      ensures Valid() && |workers| == numWorkers
      ensures forall i :: 0 <= i < |finished| ==> finished[i]
      ensures multiset(trace) == WorkOf(fs, callbacks, Root)
      ensures forall x :: multiset(trace)[Expanded(x)] == if Reachable(fs, x) then 1 else 0
    {
      CreateWorkers(fs);
      while exists j :: 0 <= j < |workers| && !finished[j]
        invariant Valid() && |workers| == numWorkers
        invariant forall j :: 0 <= j < |workers| ==> fresh(workers[j])
        invariant Inv(fs, callbacks, State())
        decreases |SumQueues(Work(fs, callbacks), Queues())|, IdleCount(State())
      {
        var j :| 0 <= j < |workers| && !finished[j];
        ghost var before := State();
        StepProgress(fs, callbacks, before, j);
        StepPreservesInv(fs, callbacks, before, j);
        var exited := WorkerStep(fs, workers[j]);
      }

      FinishedShowsAllWork(fs, callbacks, State());
      forall x ensures multiset(trace)[Expanded(x)] == if Reachable(fs, x) then 1 else 0 {
        EachReachableDirectoryOnce(fs, callbacks, x);
      }
      err := None;
    }

    /** The first part of Run: numWorkers fresh workers with empty queues,
        then the root pushed onto the first one, which is the initial pool. */
    method CreateWorkers(fs: Node)
      requires ValidTree(fs)
      requires Valid() && workers == [] && trace == []
      modifies this
      ensures Valid() && |workers| == numWorkers
      ensures forall j :: 0 <= j < |workers| ==> fresh(workers[j])
      ensures State() == Initial(numWorkers) && Inv(fs, callbacks, State())
    {
      var i := 0;
      while i < numWorkers
        invariant 0 <= i <= numWorkers && |workers| == i
        invariant Valid() && trace == []
        invariant forall j :: 0 <= j < i ==> fresh(workers[j]) && workers[j].queue == [] && !finished[j]
      {
        var worker := new Worker(i, this);
        workers := workers + [worker];
        finished := finished + [false];
        i := i + 1;
      }
      workers[0].QueuePush(Root);
      ghost var init := Initial(numWorkers).queues;
      assert init[0] == [Root] && forall j :: 1 <= j < numWorkers ==> init[j] == [];
      assert forall j :: 1 <= j < numWorkers ==> workers[j].queue == [];
      QueuesOfIs(workers, init);
      assert finished == Initial(numWorkers).finished;
      InitialInv(fs, callbacks, numWorkers);
      assert State() == Initial(numWorkers);
    }

    /** Stop: sets the cancellation flag, which no loop reads. */
    method Stop()
      modifies this`cancelled
      ensures cancelled
    {
      cancelled := true;
    }
  }
}
