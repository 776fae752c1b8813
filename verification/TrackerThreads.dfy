/** Threads that open, duplicate and close at the same time. Each hook takes two atomic
    steps, one in the kernel's descriptor table and one in the locked tracker, and the steps
    of different threads interleave freely. */
module TrackerThreads {
  import opened GpuPaths
  import FT = FdTracker

  /** What a thread has half done. */
  datatype Pending =
    | Opening(fd: int, path: string)          // allocated by the kernel, not yet tracked
    | Duplicating(oldFd: int, newFd: int)     // allocated by the kernel, record not yet copied
    | Closing(fd: int)                        // close: untracked, not yet freed by the kernel
    | Untracking(fd: int)                     // closedir: freed by the kernel, not yet untracked

  /** Open descriptors with the path of their file, the tracker's map, the busy threads. */
  datatype Shared = Shared(kernel: map<int, string>, tracker: FT.FdMap, threads: map<int, Pending>)

  datatype Action =
    | BeginOpen(tid: int, fd: int, path: string)
    | BeginDup(tid: int, oldFd: int, newFd: int)
    | BeginClose(tid: int, fd: int)
    | BeginCloseDir(tid: int, fd: int)
    | Finish(tid: int)

  /** The half-done call allocates or frees `fd` in the kernel. */
  predicate Owns(p: Pending, fd: int) {
    match p
    case Opening(f, _) => f == fd
    case Duplicating(_, newFd) => newFd == fd
    case Closing(f) => f == fd
    case Untracking(_) => false
  }

  /** No thread is allocating or freeing `fd`. */
  ghost predicate Settled(s: Shared, fd: int) {
    forall tid :: tid in s.threads ==> !Owns(s.threads[tid], fd)
  }

  /** Some closedir has freed `fd` and has still to untrack it. */
  ghost predicate ToUntrack(s: Shared, fd: int) {
    exists tid :: tid in s.threads && s.threads[tid] == Untracking(fd)
  }

  /** No thread is duplicating `fd`. */
  ghost predicate NotCopied(s: Shared, fd: int) {
    forall tid :: tid in s.threads && s.threads[tid].Duplicating? ==> s.threads[tid].oldFd != fd
  }

  /** The kernel hands out unused descriptors. A program closes or duplicates a descriptor
      only after its open has finished, closes it once, and not while it is duplicated. */
  ghost predicate Enabled(s: Shared, a: Action) {
    match a
    case BeginOpen(tid, fd, _) => tid !in s.threads && fd >= 0 && fd !in s.kernel
    case BeginDup(tid, oldFd, newFd) =>
      tid !in s.threads && newFd >= 0 && newFd !in s.kernel && oldFd in s.kernel && Settled(s, oldFd)
    case BeginClose(tid, fd) => tid !in s.threads && fd in s.kernel && Settled(s, fd) && NotCopied(s, fd)
    case BeginCloseDir(tid, fd) => tid !in s.threads && fd in s.kernel && Settled(s, fd) && NotCopied(s, fd)
    case Finish(tid) => tid in s.threads
  }

  function Step(s: Shared, a: Action): Shared
    requires Enabled(s, a)
  {
    match a
    case BeginOpen(tid, fd, path) =>
      Shared(s.kernel[fd := path], s.tracker, s.threads[tid := Opening(fd, path)])
    case BeginDup(tid, oldFd, newFd) =>
      Shared(s.kernel[newFd := s.kernel[oldFd]], s.tracker, s.threads[tid := Duplicating(oldFd, newFd)])
    case BeginClose(tid, fd) =>
      Shared(s.kernel, s.tracker - {fd}, s.threads[tid := Closing(fd)])
    case BeginCloseDir(tid, fd) =>
      Shared(s.kernel - {fd}, s.tracker, s.threads[tid := Untracking(fd)])
    case Finish(tid) =>
      match s.threads[tid]
      case Opening(fd, path) => Shared(s.kernel, FT.Recorded(s.tracker, fd, path, true), s.threads - {tid})
      case Duplicating(oldFd, newFd) => Shared(s.kernel, FT.Copied(s.tracker, oldFd, newFd), s.threads - {tid})
      case Closing(fd) => Shared(s.kernel - {fd}, s.tracker, s.threads - {tid})
      case Untracking(fd) => Shared(s.kernel, s.tracker - {fd}, s.threads - {tid})
  }

  // ----- what closedir's late untracking loses

  /** The history of a schedule that decides what is missing from the tracker at its end: a
      descriptor is lost when a late untracking meets it open and settled, that is, when an
      open or dup has finished on it since it was freed; a duplicate of a lost descriptor is
      lost too; and it is found again when it is closed or opened anew. */
  ghost function LostBy(s: Shared, a: Action, lost: set<int>): set<int>
    requires Enabled(s, a)
  {
    match a
    case BeginOpen(_, _, _) => lost
    case BeginDup(_, _, _) => lost
    case BeginClose(_, fd) => lost - {fd}
    case BeginCloseDir(_, fd) => lost - {fd}
    case Finish(tid) =>
      match s.threads[tid]
      case Opening(fd, _) => lost - {fd}
      case Duplicating(oldFd, newFd) => if oldFd in lost then lost + {newFd} else lost - {newFd}
      case Closing(_) => lost
      case Untracking(fd) => if fd in s.kernel && Settled(s, fd) then lost + {fd} else lost
  }

  /** A half-done call agrees with the kernel table, and its source is settled. */
  ghost predicate PendingOk(s: Shared, p: Pending) {
    match p
    case Opening(fd, path) => fd in s.kernel && s.kernel[fd] == path
    case Duplicating(oldFd, newFd) =>
      newFd in s.kernel && oldFd in s.kernel && Settled(s, oldFd) && s.kernel[newFd] == s.kernel[oldFd]
    case Closing(fd) => fd in s.kernel
    case Untracking(_) => true
  }

  ghost predicate ThreadsOk(s: Shared) {
    && (forall tid :: tid in s.threads ==> PendingOk(s, s.threads[tid]))
    && (forall t, u, fd :: t in s.threads && u in s.threads && Owns(s.threads[t], fd) && Owns(s.threads[u], fd) ==>
          t == u)
    && (forall fd :: fd in s.kernel ==> fd >= 0)
  }

  /** What the tracker says of one descriptor: a settled one is tracked as its path asks unless
      it is lost; any other record is a stale one that a closedir has still to remove. */
  ghost predicate RecordOk(s: Shared, lost: set<int>, fd: int) {
    if fd in s.kernel && Settled(s, fd) then
      if Classify(s.kernel[fd]).found && fd !in lost
      then fd in s.tracker && s.tracker[fd] == Classify(s.kernel[fd]).record
      else fd !in s.tracker
    else fd !in lost && (fd in s.tracker ==> ToUntrack(s, fd))
  }

  /** What holds between any two steps. */
  ghost predicate Inv(s: Shared, lost: set<int>) {
    ThreadsOk(s) && forall fd :: RecordOk(s, lost, fd)
  }

  /** A thread that has begun a call changes what is settled and what is to be untracked by
      that call alone. */
  lemma Began(s: Shared, n: Shared, tid: int, p: Pending)
    requires tid !in s.threads && n.threads == s.threads[tid := p]
    ensures forall g :: Settled(n, g) <==> Settled(s, g) && !Owns(p, g)
    ensures forall g :: ToUntrack(n, g) <==> ToUntrack(s, g) || p == Untracking(g)
  {
    assert forall t :: t in s.threads ==> t in n.threads && n.threads[t] == s.threads[t];
    assert n.threads[tid] == p;
  }

  lemma Finished(s: Shared, n: Shared, tid: int)
    requires ThreadsOk(s) && tid in s.threads && n.threads == s.threads - {tid}
    ensures forall g :: Settled(n, g) <==> Settled(s, g) || Owns(s.threads[tid], g)
    ensures forall g :: ToUntrack(s, g) && s.threads[tid] != Untracking(g) ==> ToUntrack(n, g)
  {
    assert forall t :: t in n.threads ==> t in s.threads && n.threads[t] == s.threads[t];
    forall g
      ensures Settled(n, g) <==> Settled(s, g) || Owns(s.threads[tid], g)
    {
      if Settled(n, g) && !Owns(s.threads[tid], g) {
        forall t | t in s.threads
          ensures !Owns(s.threads[t], g)
        {
          assert t == tid || t in n.threads;
        }
      }
    }
    forall g | ToUntrack(s, g) && s.threads[tid] != Untracking(g)
      ensures ToUntrack(n, g)
    {
      var t :| t in s.threads && s.threads[t] == Untracking(g);
      assert t in n.threads;
    }
  }

  /** The threads' half-done calls stay consistent. */
  lemma BeginKeepsThreads(s: Shared, a: Action, tid: int, p: Pending)
    requires ThreadsOk(s) && Enabled(s, a) && !a.Finish?
    requires tid == a.tid && Step(s, a).threads == s.threads[tid := p]
    ensures ThreadsOk(Step(s, a))
  {
    hide Classify;
    var n := Step(s, a);
    Began(s, n, tid, p);
    assert n.threads[tid] == p;
    forall t | t in n.threads
      ensures PendingOk(n, n.threads[t])
    {
      if t != tid {
        assert t in s.threads && n.threads[t] == s.threads[t] && PendingOk(s, s.threads[t]);
      }
    }
    forall t, u, fd | t in n.threads && u in n.threads && Owns(n.threads[t], fd) && Owns(n.threads[u], fd)
      ensures t == u
    {
      assert t != tid ==> t in s.threads && PendingOk(s, s.threads[t]);
      assert u != tid ==> u in s.threads && PendingOk(s, s.threads[u]);
    }
  }

  lemma FinishKeepsThreads(s: Shared, tid: int)
    requires ThreadsOk(s) && Enabled(s, Finish(tid))
    ensures ThreadsOk(Step(s, Finish(tid)))
  {
    hide Classify;
    var n := Step(s, Finish(tid));
    Finished(s, n, tid);
    assert PendingOk(s, s.threads[tid]);
    forall t | t in n.threads
      ensures PendingOk(n, n.threads[t])
    {
      assert t in s.threads && n.threads[t] == s.threads[t] && PendingOk(s, s.threads[t]);
      if s.threads[tid].Closing? {
        assert !Settled(s, s.threads[tid].fd);
      }
    }
  }

  lemma BeginKeepsRecord(s: Shared, lost: set<int>, a: Action, fd: int)
    requires Inv(s, lost) && Enabled(s, a) && !a.Finish?
    ensures RecordOk(Step(s, a), LostBy(s, a, lost), fd)
  {
    hide Classify, ThreadsOk;
    var n := Step(s, a);
    assert RecordOk(s, lost, fd);
    Began(s, n, a.tid, n.threads[a.tid]);
  }

  lemma FinishKeepsRecord(s: Shared, lost: set<int>, tid: int, fd: int)
    requires Inv(s, lost) && Enabled(s, Finish(tid))
    ensures RecordOk(Step(s, Finish(tid)), LostBy(s, Finish(tid), lost), fd)
  {
    hide Classify;
    var n, p := Step(s, Finish(tid)), s.threads[tid];
    Finished(s, n, tid);
    hide ThreadsOk;
    assert RecordOk(s, lost, fd);
    PendingIsOk(s, tid);
    match p
    case Opening(_, _) =>
    case Duplicating(oldFd, newFd) =>
      assert RecordOk(s, lost, oldFd);
    case Closing(f) =>
    case Untracking(f) =>
  }

  lemma PendingIsOk(s: Shared, tid: int)
    requires ThreadsOk(s) && tid in s.threads
    ensures PendingOk(s, s.threads[tid]) && forall fd :: fd in s.kernel ==> fd >= 0
    ensures forall fd :: Owns(s.threads[tid], fd) ==> !Settled(s, fd)
  {
  }

  lemma StepKeepsInv(s: Shared, lost: set<int>, a: Action)
    requires Inv(s, lost) && Enabled(s, a)
    ensures Inv(Step(s, a), LostBy(s, a, lost))
  {
    hide RecordOk, ThreadsOk, Step, LostBy;
    if a.Finish? {
      FinishKeepsThreads(s, a.tid);
    } else {
      var p := PendingOf(s, a);
      BeginKeepsThreads(s, a, a.tid, p);
    }
    forall fd
      ensures RecordOk(Step(s, a), LostBy(s, a, lost), fd)
    {
      if a.Finish? {
        FinishKeepsRecord(s, lost, a.tid, fd);
      } else {
        BeginKeepsRecord(s, lost, a, fd);
      }
    }
  }

  lemma PendingOf(s: Shared, a: Action) returns (p: Pending)
    requires Enabled(s, a) && !a.Finish?
    ensures Step(s, a).threads == s.threads[a.tid := p]
  {
    p := Step(s, a).threads[a.tid];
  }

  // ----- every interleaving

  ghost predicate Schedule(s: Shared, actions: seq<Action>)
    decreases |actions|
  {
    actions == [] || (Enabled(s, actions[0]) && Schedule(Step(s, actions[0]), actions[1..]))
  }

  function RunAll(s: Shared, actions: seq<Action>): Shared
    requires Schedule(s, actions)
    decreases |actions|
  {
    if actions == [] then s else RunAll(Step(s, actions[0]), actions[1..])
  }

  /** The descriptors lost at the end of a schedule. */
  ghost function Lost(s: Shared, actions: seq<Action>, lost: set<int>): set<int>
    requires Schedule(s, actions)
    decreases |actions|
  {
    if actions == [] then lost
    else Lost(Step(s, actions[0]), actions[1..], LostBy(s, actions[0], lost))
  }

  lemma {:induction false} RunKeepsInv(s: Shared, actions: seq<Action>, lost: set<int>)
    requires Inv(s, lost) && Schedule(s, actions)
    ensures Inv(RunAll(s, actions), Lost(s, actions, lost))
    decreases |actions|
  {
    hide Inv, Step, Enabled, LostBy;
    if actions != [] {
      StepKeepsInv(s, lost, actions[0]);
      RunKeepsInv(Step(s, actions[0]), actions[1..], LostBy(s, actions[0], lost));
    }
  }

  /** All descriptors settled, and the tracker exact. */
  function Start(kernel: map<int, string>): Shared {
    Shared(kernel, FT.RecordsOf(kernel), map[])
  }

  /** Whatever the interleaving of opens, dups, closes and closedirs, once no call is half done
      the tracker maps each open descriptor to the classification of its own path, except for
      exactly those a late untracking has lost; so it is exact iff none of these is one that
      the classifier knows. */
  lemma QuiescentTrackerIsExactIff(kernel: map<int, string>, actions: seq<Action>)
    requires forall fd :: fd in kernel ==> fd >= 0
    requires Schedule(Start(kernel), actions)
    ensures var end, lost := RunAll(Start(kernel), actions), Lost(Start(kernel), actions, {});
            end.threads == map[] ==>
              && end.tracker == FT.RecordsOf(end.kernel) - lost
              && (end.tracker == FT.RecordsOf(end.kernel) <==>
                  forall fd :: fd in lost && fd in end.kernel ==> !Classify(end.kernel[fd]).found)
  {
    var start := Start(kernel);
    hide Classify, Schedule, RunAll, Lost;
    StartIsOk(kernel);
    RunKeepsInv(start, actions, {});
    var end, lost := RunAll(start, actions), Lost(start, actions, {});
    if end.threads == map[] {
      QuiescentIsExact(end, lost);
    }
  }

  lemma StartIsOk(kernel: map<int, string>)
    requires forall fd :: fd in kernel ==> fd >= 0
    ensures Inv(Start(kernel), {})
  {
    hide Classify;
  }

  lemma QuiescentIsExact(s: Shared, lost: set<int>)
    requires Inv(s, lost) && s.threads == map[]
    ensures s.tracker == FT.RecordsOf(s.kernel) - lost
    ensures s.tracker == FT.RecordsOf(s.kernel) <==>
            forall fd :: fd in lost && fd in s.kernel ==> !Classify(s.kernel[fd]).found
  {
    hide Classify;
    var expected := FT.RecordsOf(s.kernel);
    forall fd
      ensures fd in s.tracker <==> fd in expected && fd !in lost
      ensures fd in s.tracker ==> s.tracker[fd] == expected[fd]
    {
      assert RecordOk(s, lost, fd);
      assert Settled(s, fd) && !ToUntrack(s, fd);
    }
    assert s.tracker == expected - lost;
    if fd :| fd in lost && fd in s.kernel && Classify(s.kernel[fd]).found {
      assert fd in expected && fd !in s.tracker;
    } else {
      assert forall fd :: fd in expected ==> fd !in lost;
      assert expected - lost == expected;
    }
  }

  // ----- schedules that lose nothing

  /** No open and no dup finishes on a descriptor between its being freed by a closedir and
      that closedir's untracking. */
  ghost predicate NothingFinishesLate(s: Shared, actions: seq<Action>)
    requires Schedule(s, actions)
    decreases |actions|
  {
    actions == [] ||
    (!FinishesLate(s, actions[0]) && NothingFinishesLate(Step(s, actions[0]), actions[1..]))
  }

  ghost predicate FinishesLate(s: Shared, a: Action)
    requires Enabled(s, a)
  {
    a.Finish? &&
    match s.threads[a.tid]
    case Opening(fd, _) => ToUntrack(s, fd)
    case Duplicating(_, newFd) => ToUntrack(s, newFd)
    case _ => false
  }

  /** Until something finishes late, a descriptor that is still to be untracked is free or
      half-done. */
  ghost predicate NoneReused(s: Shared) {
    forall fd :: ToUntrack(s, fd) ==> !(fd in s.kernel && Settled(s, fd))
  }

  lemma StepLosesNothing(s: Shared, a: Action)
    requires Inv(s, {}) && NoneReused(s) && Enabled(s, a) && !FinishesLate(s, a)
    ensures NoneReused(Step(s, a)) && LostBy(s, a, {}) == {}
  {
    hide Classify, RecordOk;
    var n := Step(s, a);
    if a.Finish? {
      Finished(s, n, a.tid);
      forall fd | ToUntrack(n, fd)
        ensures ToUntrack(s, fd)
      {
        var t :| t in n.threads && n.threads[t] == Untracking(fd);
        assert t in s.threads && s.threads[t] == Untracking(fd);
      }
      if s.threads[a.tid].Untracking? {
        assert ToUntrack(s, s.threads[a.tid].fd);
      }
    } else {
      var p := PendingOf(s, a);
      Began(s, n, a.tid, p);
      assert n.threads[a.tid] == p;
    }
  }

  lemma {:induction false} NothingLost(s: Shared, actions: seq<Action>)
    requires Inv(s, {}) && NoneReused(s) && Schedule(s, actions) && NothingFinishesLate(s, actions)
    ensures Lost(s, actions, {}) == {}
    decreases |actions|
  {
    hide Inv, Step, Enabled, LostBy, FinishesLate, NoneReused;
    if actions != [] {
      StepLosesNothing(s, actions[0]);
      StepKeepsInv(s, {}, actions[0]);
      NothingLost(Step(s, actions[0]), actions[1..]);
    }
  }

  /** If no open and no dup finishes in the middle of a closedir of its own descriptor, the
      tracker is exact at quiescence. */
  lemma ClosedirIsExactUnlessReused(kernel: map<int, string>, actions: seq<Action>)
    requires forall fd :: fd in kernel ==> fd >= 0
    requires Schedule(Start(kernel), actions) && NothingFinishesLate(Start(kernel), actions)
    ensures var end := RunAll(Start(kernel), actions);
            end.threads == map[] ==> end.tracker == FT.RecordsOf(end.kernel)
  {
    hide Classify, Schedule, RunAll, Lost, NothingFinishesLate;
    StartIsOk(kernel);
    assert NoneReused(Start(kernel));
    NothingLost(Start(kernel), actions);
    QuiescentTrackerIsExactIff(kernel, actions);
  }

  lemma {:induction false} NothingLateWithoutClosedir(s: Shared, actions: seq<Action>)
    requires Schedule(s, actions) && forall i :: 0 <= i < |actions| ==> !actions[i].BeginCloseDir?
    requires forall tid :: tid in s.threads ==> !s.threads[tid].Untracking?
    ensures NothingFinishesLate(s, actions)
    decreases |actions|
  {
    hide Enabled, Classify;
    if actions != [] {
      var n := Step(s, actions[0]);
      assert forall tid :: tid in n.threads ==> !n.threads[tid].Untracking?;
      NothingLateWithoutClosedir(n, actions[1..]);
    }
  }

  /** Untracking before freeing, as close does, is exact under every interleaving: without
      closedir the tracker of a quiescent process holds the classification of each open
      descriptor and nothing else. */
  lemma QuiescentTrackerIsExact(kernel: map<int, string>, actions: seq<Action>)
    requires forall fd :: fd in kernel ==> fd >= 0
    requires Schedule(Start(kernel), actions) && forall i :: 0 <= i < |actions| ==> !actions[i].BeginCloseDir?
    ensures var end := RunAll(Start(kernel), actions);
            end.threads == map[] ==> end.tracker == FT.RecordsOf(end.kernel)
  {
    hide Classify, Schedule, RunAll, NothingFinishesLate;
    NothingLateWithoutClosedir(Start(kernel), actions);
    ClosedirIsExactUnlessReused(kernel, actions);
  }

  /** Between the two steps of a closedir of `fd`, another thread opens `path` and is given the
      same descriptor. */
  function ReusedSchedule(fd: int, path: string): seq<Action> {
    [BeginCloseDir(1, fd), BeginOpen(2, fd, path), Finish(2), Finish(1)]
  }

  /** This schedule loses the record of `fd`, which nobody notices iff there was none to lose. */
  lemma ReusedScheduleLoses(kernel: map<int, string>, fd: int, path: string)
    requires fd in kernel && fd >= 0
    ensures var actions := ReusedSchedule(fd, path);
            && Schedule(Start(kernel), actions) && !NothingFinishesLate(Start(kernel), actions)
            && var end := RunAll(Start(kernel), actions);
               && end.threads == map[] && end.kernel == kernel[fd := path] && fd !in end.tracker
               && (end.tracker == FT.RecordsOf(end.kernel) <==> !Classify(path).found)
  {
    hide Classify;
    var s0, actions, expected := Start(kernel), ReusedSchedule(fd, path), FT.RecordsOf(kernel);
    var s1 := Shared(kernel - {fd}, expected, map[1 := Untracking(fd)]);
    var s2 := Shared(kernel[fd := path], expected, map[1 := Untracking(fd), 2 := Opening(fd, path)]);
    var s3 := Shared(kernel[fd := path], FT.Recorded(expected, fd, path, true), map[1 := Untracking(fd)]);
    var s4 := Shared(kernel[fd := path], expected - {fd}, map[]);
    assert s1 == Step(s0, actions[0]);
    assert (kernel - {fd})[fd := path] == kernel[fd := path];
    assert s2 == Step(s1, actions[1]);
    assert map[1 := Untracking(fd), 2 := Opening(fd, path)] - {2} == map[1 := Untracking(fd)];
    assert s3 == Step(s2, actions[2]);
    assert FT.Recorded(expected, fd, path, true) - {fd} == expected - {fd};
    assert s4 == Step(s3, actions[3]);
    ScheduleOfFour(s0, actions, s1, s2, s3, s4);
    assert s2.threads[1] == Untracking(fd);
    hide FT.RecordsOf;
    WithoutRecord(kernel, fd, path);
  }

  lemma WithoutRecord(kernel: map<int, string>, fd: int, path: string)
    requires fd in kernel
    ensures FT.RecordsOf(kernel) - {fd} == FT.RecordsOf(kernel[fd := path]) <==> !Classify(path).found
  {
    hide Classify;
    if Classify(path).found {
      assert fd in FT.RecordsOf(kernel[fd := path]);
    } else {
      assert FT.RecordsOf(kernel) - {fd} == FT.RecordsOf(kernel[fd := path]);
    }
  }

  lemma ScheduleOfFour(s0: Shared, actions: seq<Action>, s1: Shared, s2: Shared, s3: Shared, s4: Shared)
    requires |actions| == 4
    requires Enabled(s0, actions[0]) && s1 == Step(s0, actions[0])
    requires Enabled(s1, actions[1]) && s2 == Step(s1, actions[1])
    requires Enabled(s2, actions[2]) && s3 == Step(s2, actions[2])
    requires Enabled(s3, actions[3]) && s4 == Step(s3, actions[3])
    ensures Schedule(s0, actions) && RunAll(s0, actions) == s4
    ensures FinishesLate(s2, actions[2]) ==> !NothingFinishesLate(s0, actions)
  {
    hide Enabled, Step, FinishesLate;
    assert actions[1..][1..] == actions[2..] && actions[2..][1..] == actions[3..] && actions[3..][1..] == [];
    assert Schedule(s3, actions[3..]) && RunAll(s3, actions[3..]) == s4;
    assert Schedule(s2, actions[2..]) && RunAll(s2, actions[2..]) == s4;
    assert Schedule(s1, actions[1..]) && RunAll(s1, actions[1..]) == s4;
    if FinishesLate(s2, actions[2]) {
      assert !NothingFinishesLate(s2, actions[2..]);
      assert !NothingFinishesLate(s1, actions[1..]);
    }
  }
}
