/** Reading a virtual /proc/meminfo, end to end: from the detected limit and the real file,
    through the rewriter, the 64-slot table and the hooks, to the bytes a program reads. */
module VirtualMeminfo {
  import opened Text
  import opened Numbers
  import opened GpuPaths
  import opened RelativePaths
  import opened Hooks
  import CG = Cgroup
  import MI = Meminfo
  import MV = MemoryView
  import VF = VirtualFiles

  /** The call neither closes `fd` nor puts another file behind it. */
  predicate LeavesAlone(call: Call, fd: int) {
    && (call.Close? ==> call.fd != fd)
    && (call.Dup2? || call.Dup3? ==> call.newFd != fd)
  }

  predicate AllLeaveAlone(calls: seq<Call>, fd: int) {
    forall i :: 0 <= i < |calls| ==> LeavesAlone(calls[i], fd)
  }

  /** All virtual bytes the reads on `fd` return along a run. */
  function BytesRead(cfg: Config, w: World, fd: int, calls: seq<Call>): string
    decreases |calls|
  {
    if calls == [] then ""
    else
      (if calls[0].Read? && calls[0].fd == fd && fd in w.virtual then VF.Served(w.virtual[fd], calls[0].count) else "")
      + BytesRead(cfg, Step(cfg, w, calls[0]), fd, calls[1..])
  }

  function BytesWanted(fd: int, calls: seq<Call>): nat
    decreases |calls|
  {
    if calls == [] then 0
    else (if calls[0].Read? && calls[0].fd == fd then calls[0].count else 0) + BytesWanted(fd, calls[1..])
  }

  lemma AttachLeavesOthers(
    cfg: Config, w: World, path: string, readable: bool, files: CG.FileSystem, rc: int, alloc: bool, fd: int)
    requires fd in w.virtual && fd != rc
    ensures var next := Attach(cfg, w, path, readable, files, rc, alloc);
            fd in next.virtual && next.virtual[fd] == w.virtual[fd]
  {
    hide Built;
  }

  lemma VirtualUntouched(cfg: Config, w: World, call: Call, fd: int)
    requires Safe(cfg, w) && Legal(w, call) && fd in w.virtual && LeavesAlone(call, fd)
    requires !(call.Read? && call.fd == fd)
    ensures var next := Step(cfg, w, call); fd in next.virtual && next.virtual[fd] == w.virtual[fd]
  {
    hide Classify, Denied, EffectivePath, Track, CopiedRecord, Expected, Target, Attach, Built, ShowsMemory, FileOk;
    assert fd in w.kernel && fd >= 0;
    match call
    case Open(path, isDir, readable, files, rc, alloc) =>
      var file := OpenFile(path, Target(w, AT_FDCWD, path), isDir, Descriptor);
      if fd != rc {
        AttachLeavesOthers(cfg, OpenedAndTracked(cfg, w, rc, file, alloc), path, readable, files, rc, alloc, fd);
      }
    case OpenAt(dirFd, path, isDir, readable, files, rc, alloc) =>
      var e := EffectivePath(Lookup(w.tracker, dirFd), path);
      if !e.Refused? && fd != rc {
        OpenedAtLeavesOthers(cfg, w, call, e.path, fd);
      }
    case _ =>
  }

  lemma OpenedAtLeavesOthers(cfg: Config, w: World, call: Call, effective: string, fd: int)
    requires call.OpenAt? && fd in w.virtual && fd != call.rc
    ensures var next := OpenedAt(cfg, w, call, effective); fd in next.virtual && next.virtual[fd] == w.virtual[fd]
  {
    hide Track, Target, Attach;
    var file := OpenFile(effective, Target(w, call.dirFd, call.path), call.isDir, Descriptor);
    var next := if Absolute(effective) || call.dirFd == AT_FDCWD
                then OpenedAndTracked(cfg, w, call.rc, file, call.alloc)
                else w.(kernel := Opened(w.kernel, call.rc, file));
    AttachLeavesOthers(cfg, next, call.path, call.readable, call.files, call.rc, call.alloc, fd);
  }

  lemma ReadAdvances(cfg: Config, w: World, fd: int, count: nat)
    requires Safe(cfg, w) && fd in w.virtual
    ensures var v, next := w.virtual[fd], Step(cfg, w, Read(fd, count));
            && v.offset <= |v.data|
            && fd in next.virtual && next.virtual[fd] == VF.Virtual(v.data, v.offset + VF.Available(v, count))
  {
    hide ShowsMemory, TrackerSound, KernelOk;
  }

  /** Whatever else the process opens, duplicates, reads and closes in between, the reads on a
      virtual descriptor deliver its contents once, in order, up to their end or to the number
      of bytes asked for. */
  lemma {:induction false} ReadsDeliverContents(cfg: Config, w: World, fd: int, calls: seq<Call>)
    requires Safe(cfg, w) && LegalRun(cfg, w, calls) && fd in w.virtual && AllLeaveAlone(calls, fd)
    ensures BytesRead(cfg, w, fd, calls) == VF.Served(w.virtual[fd], BytesWanted(fd, calls))
    decreases |calls|
  {
    hide Step, Legal, Safe, LeavesAlone, VF.Served, VF.Available;
    var v := w.virtual[fd];
    if calls == [] {
      VF.ServedNothing(v);
    } else {
      var call, rest := calls[0], calls[1..];
      var next := Step(cfg, w, call);
      StepKeepsSafe(cfg, w, call);
      assert LeavesAlone(call, fd) && AllLeaveAlone(rest, fd);
      if call.Read? && call.fd == fd {
        ReadAdvances(cfg, w, fd, call.count);
        VF.ServedTwice(v, call.count, BytesWanted(fd, rest));
        ReadsDeliverContents(cfg, next, fd, rest);
      } else {
        VirtualUntouched(cfg, w, call, fd);
        ReadsDeliverContents(cfg, next, fd, rest);
        assert BytesRead(cfg, w, fd, calls) == BytesRead(cfg, next, fd, rest);
      }
    }
  }

  // ----- which descriptors are virtual

  /** The real file can be read and rewritten within 65536 bytes, and there is a snapshot. */
  predicate CanBuild(w: World, files: CG.FileSystem) {
    && MV.Next(w.memory, files).1.Some? && "/proc/meminfo" in files
    && |MI.Rewritten(MV.Next(w.memory, files).1.value, files["/proc/meminfo"])| <= 65536
  }

  /** The call is an open of /proc/meminfo for reading, by its one name and not below a directory
      descriptor, that the kernel grants as `fd`; the cgroup module is on, the text can be built,
      stored, and one of the 64 slots is free. */
  predicate Attaches(cfg: Config, w: World, call: Call, fd: int) {
    && (call.Open? || (call.OpenAt? && call.dirFd == -100))
    && call.path == "/proc/meminfo" && call.readable && call.rc == fd && fd >= 0
    && cfg.cgroupMemory && CanBuild(w, call.files) && |w.virtual| < 64
    && (call.alloc || MI.Rewritten(MV.Next(w.memory, call.files).1.value, call.files["/proc/meminfo"]) == "")
  }

  /** The call frees the descriptor, or puts another file behind it. closedir does not: it frees
      directories. */
  predicate Detaches(w: World, call: Call, fd: int) {
    || (call.Close? && call.fd == fd)
    || (call.Dup2? && call.newFd == fd && call.rc >= 0 && call.oldFd != fd)
    || (call.Dup3? && call.newFd == fd && call.rc >= 0)
  }

  /** A descriptor is virtual after a call iff the call made it so, or it was and the call did not
      free or replace it. In particular a duplicate is not. */
  lemma VirtualIff(cfg: Config, w: World, call: Call, fd: int)
    requires Safe(cfg, w) && Legal(w, call)
    ensures fd in Step(cfg, w, call).virtual <==>
            Attaches(cfg, w, call, fd) || (fd in w.virtual && !Detaches(w, call, fd))
  {
    hide Classify, Denied, EffectivePath, Track, CopiedRecord, Target, Attach, MI.Rewritten, MV.Next, FileOk,
         ShowsMemory, TrackerSound, Built;
    match call
    case Open(path, isDir, readable, files, rc, alloc) =>
      if path == MEMINFO {
        MeminfoIsNotDenied(cfg);
      }
      var file := OpenFile(path, Target(w, AT_FDCWD, path), isDir, Descriptor);
      AttachIff(cfg, w, OpenedAndTracked(cfg, w, rc, file, alloc), path, readable, files, rc, alloc, fd);
    case OpenAt(dirFd, path, isDir, readable, files, rc, alloc) =>
      OpenedAtIff(cfg, w, call, fd);
    case Read(readFd, count) =>
      if readFd in w.virtual && readFd == fd {
        ReadAdvances(cfg, w, fd, count);
      }
    case _ =>
  }

  /** The attaching step itself, on a world that differs from `w` in the kernel and the tracker only. */
  lemma AttachIff(cfg: Config, w: World, before: World, path: string, readable: bool, files: CG.FileSystem,
                  rc: int, alloc: bool, fd: int)
    requires before.virtual == w.virtual && before.memory == w.memory && (rc >= 0 ==> rc !in w.virtual)
    ensures fd in Attach(cfg, before, path, readable, files, rc, alloc).virtual <==>
            || (path == "/proc/meminfo" && readable && rc == fd && fd >= 0 && cfg.cgroupMemory
                && CanBuild(w, files) && |w.virtual| < 64
                && (alloc || MI.Rewritten(MV.Next(w.memory, files).1.value, files["/proc/meminfo"]) == ""))
            || fd in w.virtual
  {
    hide MI.Rewritten, MV.Next;
  }

  lemma OpenedAtIff(cfg: Config, w: World, call: Call, fd: int)
    requires Safe(cfg, w) && Legal(w, call) && call.OpenAt?
    ensures fd in Step(cfg, w, call).virtual <==> Attaches(cfg, w, call, fd) || fd in w.virtual
  {
    hide Classify, Denied, Track, Target, Attach, MI.Rewritten, MV.Next, FileOk, ShowsMemory, TrackerSound,
         Built, StartSegments;
    var e := EffectivePath(Lookup(w.tracker, call.dirFd), call.path);
    if call.path == MEMINFO {
      MeminfoIsNotDenied(cfg);
      assert e == Passthrough(MEMINFO);
    }
    if !e.Refused? && !Denied(cfg, e.path) {
      var file := OpenFile(e.path, Target(w, call.dirFd, call.path), call.isDir, Descriptor);
      var next := if Absolute(e.path) || call.dirFd == AT_FDCWD
                  then OpenedAndTracked(cfg, w, call.rc, file, call.alloc)
                  else w.(kernel := Opened(w.kernel, call.rc, file));
      AttachIff(cfg, w, next, call.path, call.readable, call.files, call.rc, call.alloc, fd);
    }
  }

  /** A stream comes from a file in memory iff it is one of /proc/meminfo, opened for reading
      only, with the cgroup module on, a text that can be built and a file to hold it. */
  lemma StreamIff(cfg: Config, w: World, call: Call)
    requires call.FOpen? && call.rc >= 0
    ensures call.rc in Step(cfg, w, call).kernel
    ensures Step(cfg, w, call).kernel[call.rc].via.MemoryStream? <==>
            call.path == "/proc/meminfo" && call.readOnly && cfg.cgroupMemory && call.memfd && CanBuild(w, call.files)
    ensures Step(cfg, w, call).kernel[call.rc].via.MemoryStream? || Step(cfg, w, call).kernel[call.rc].via.Stream?
  {
    hide MI.Rewritten, MV.Next, Target;
  }

  // ----- from the open on

  /** An open of /proc/meminfo for reading that the kernel grants, with room in the table. */
  predicate OpensMeminfo(cfg: Config, w: World, call: Call) {
    && (call.Open? || (call.OpenAt? && call.dirFd == AT_FDCWD)) && call.path == MEMINFO
    && call.readable && call.rc >= 0 && call.alloc && cfg.cgroupMemory
    && |w.virtual| < VF.CAPACITY
  }

  /** Such an open takes the branches of an open that is admitted and virtualized. */
  lemma MeminfoStep(cfg: Config, w: World, call: Call)
    requires OpensMeminfo(cfg, w, call)
    ensures var file := OpenFile(MEMINFO, Target(w, AT_FDCWD, MEMINFO), call.isDir, Descriptor);
            var before := OpenedAndTracked(cfg, w, call.rc, file, call.alloc);
            Step(cfg, w, call) == Attach(cfg, before, MEMINFO, true, call.files, call.rc, true)
  {
    hide Denied, Track, Target, Attach;
    MeminfoIsNotDenied(cfg);
  }

  lemma AttachStores(cfg: Config, w: World, files: CG.FileSystem, rc: int)
    requires rc >= 0 && cfg.cgroupMemory && |w.virtual| < VF.CAPACITY && Built(w.memory, files).1.Some?
    ensures var next, built := Attach(cfg, w, MEMINFO, true, files, rc, true), Built(w.memory, files);
            && next.memory == built.0
            && rc in next.virtual && next.virtual[rc] == VF.Virtual(built.1.value, 0)
  {
    hide Built;
  }

  lemma BuiltFromSnapshot(memory: Option<CG.Memory>, files: CG.FileSystem) returns (s: MV.Snapshot)
    requires MV.Finite(memory) && Built(memory, files).1.Some?
    ensures MV.Next(memory, files).1 == Some(s) && MI.Is64Bit(s) && s.available <= s.total && MEMINFO in files
    ensures Built(memory, files).0.Some? && Built(memory, files).0.value.limit == s.total
    ensures Built(memory, files).1 == Some(MI.Rewritten(s, files[MEMINFO]))
    ensures |MI.Rewritten(s, files[MEMINFO])| <= MEMINFO_SIZE
  {
    hide MV.Next, MI.Rewritten;
    MV.NextKeepsLimit(memory, files);
    s := MV.Next(memory, files).1.value;
  }

  /** The text a program sees, and the snapshot it was built from. */
  lemma MeminfoAttached(cfg: Config, w: World, call: Call) returns (s: MV.Snapshot)
    requires Safe(cfg, w) && OpensMeminfo(cfg, w, call) && Built(w.memory, call.files).1.Some?
    ensures MV.Next(w.memory, call.files).1 == Some(s) && MI.Is64Bit(s) && s.available <= s.total
    ensures MEMINFO in call.files && |MI.Rewritten(s, call.files[MEMINFO])| <= MEMINFO_SIZE
    ensures var next := Step(cfg, w, call);
            && next.memory.Some? && next.memory.value.limit == s.total
            && call.rc in next.virtual
            && next.virtual[call.rc] == VF.Virtual(MI.Rewritten(s, call.files[MEMINFO]), 0)
  {
    hide Step, Attach, Built, Track, MV.Next, MI.Rewritten, Target, VirtualSound, KernelOk, TrackerSound;
    s := BuiltFromSnapshot(w.memory, call.files);
    MeminfoStep(cfg, w, call);
    var file := OpenFile(MEMINFO, Target(w, AT_FDCWD, MEMINFO), call.isDir, Descriptor);
    AttachStores(cfg, OpenedAndTracked(cfg, w, call.rc, file, call.alloc), call.files, call.rc);
  }

  /** End to end: whatever else the process does, the reads on a descriptor of /proc/meminfo
      deliver, once and in order, the real file with the container's numbers: the same lines,
      the three target lines (unless longer than the line buffer) printed anew, so that their
      numbers read back as the kilobytes of the snapshot taken at the open, and all other lines
      as they are. */
  lemma MeminfoEndToEnd(cfg: Config, w: World, call: Call, calls: seq<Call>)
    requires Safe(cfg, w) && Legal(w, call) && OpensMeminfo(cfg, w, call) && Built(w.memory, call.files).1.Some?
    requires LegalRun(cfg, Step(cfg, w, call), calls) && AllLeaveAlone(calls, call.rc)
    ensures MEMINFO in call.files && MV.Next(w.memory, call.files).1.Some?
    ensures var s, text := MV.Next(w.memory, call.files).1.value, call.files[MEMINFO];
            var shown := MI.Rewritten(s, text);
            var want := BytesWanted(call.rc, calls);
            && |shown| <= MEMINFO_SIZE
            && BytesRead(cfg, Step(cfg, w, call), call.rc, calls) == shown[..if |shown| < want then |shown| else want]
            && ('\0' !in text ==> ShowsNumbers(s, text, shown))
  {
    hide Step, LegalRun, AllLeaveAlone, BytesRead, BytesWanted, Safe, Built, MI.Rewritten, MV.Next, ShowsNumbers;
    var s := MeminfoAttached(cfg, w, call);
    StepKeepsSafe(cfg, w, call);
    ReadsDeliverContents(cfg, Step(cfg, w, call), call.rc, calls);
    var text := call.files[MEMINFO];
    if '\0' !in text {
      RewrittenShowsNumbers(s, text);
    }
  }

  /** Line by line: what is not a target line is the same, a target line reads back as the
      kilobytes of the snapshot's total or available memory. */
  ghost predicate ShowsNumbers(s: MV.Snapshot, text: string, shown: string) {
    var before, after := MI.TextLines(text), MI.TextLines(shown);
    && |after| == |before|
    && (forall i :: 0 <= i < |before| && |before[i]| < CG.LINE_SIZE ==> MI.ShowsLine(s, before[i], after[i]))
  }

  lemma RewrittenShowsNumbers(s: MV.Snapshot, text: string)
    requires MI.Is64Bit(s) && '\0' !in text
    ensures ShowsNumbers(s, text, MI.Rewritten(s, text))
  {
    hide MI.Rewritten, MI.TextLines, MI.KeepsLines, MI.ShowsLine, MI.Rewrite;
    MI.RewritesLineByLine(s, text);
    MI.PlainTextKeepsLines(text);
    var before, after := MI.TextLines(text), MI.TextLines(MI.Rewritten(s, text));
    forall i | 0 <= i < |before| && |before[i]| < CG.LINE_SIZE
      ensures MI.ShowsLine(s, before[i], after[i])
    {
      MI.LineOfText(text, i);
      MI.RewrittenOneLine(s, before[i]);
      MI.ReportsSnapshot(s, before[i]);
    }
  }

  // ----- streams

  /** An open of /proc/meminfo for reading through fopen, with a file in memory to be had. */
  predicate StreamsMeminfo(cfg: Config, call: Call) {
    call.FOpen? && VirtualizesStream(cfg, call) && call.memfd && call.rc >= 0
  }

  /** A stream of /proc/meminfo holds the same text, whole: the rewritten real file. */
  lemma StreamEndToEnd(cfg: Config, w: World, call: Call)
    requires Safe(cfg, w) && Legal(w, call) && StreamsMeminfo(cfg, call) && Built(w.memory, call.files).1.Some?
    ensures MEMINFO in call.files && MV.Next(w.memory, call.files).1.Some?
    ensures var s, text := MV.Next(w.memory, call.files).1.value, call.files[MEMINFO];
            var shown := MI.Rewritten(s, text);
            && |shown| <= MEMINFO_SIZE
            && call.rc in Step(cfg, w, call).kernel
            && Step(cfg, w, call).kernel[call.rc].via == MemoryStream(shown)
            && ('\0' !in text ==> ShowsNumbers(s, text, shown))
  {
    hide Built, MV.Next, MI.Rewritten, Target, ShowsNumbers, TrackerSound, KernelOk, VirtualSound;
    var s := BuiltFromSnapshot(w.memory, call.files);
    var text := call.files[MEMINFO];
    if '\0' !in text {
      RewrittenShowsNumbers(s, text);
    }
  }

  /** The text of /proc/meminfo behind a descriptor, if the library has put one there. */
  function TextBehind(w: World, fd: int): Option<string> {
    if fd in w.virtual then Some(w.virtual[fd].data)
    else if fd in w.kernel && w.kernel[fd].via.MemoryStream? then Some(w.kernel[fd].via.text)
    else None
  }

  /** Over a whole run all descriptors and streams of /proc/meminfo show the same MemTotal:
      their contents are rewritten to snapshots of one total, however usage changes between the
      opens. */
  lemma OneTotalPerRun(cfg: Config, w: World, calls: seq<Call>, a: int, b: int)
    requires Initial(w) && LegalRun(cfg, w, calls)
    requires TextBehind(RunAll(cfg, w, calls), a).Some? && TextBehind(RunAll(cfg, w, calls), b).Some?
    ensures exists s: MV.Snapshot, t: MV.Snapshot, x: string, y: string ::
              && s.total == t.total && 0 < s.total < CG.SENTINEL && s.available <= s.total && t.available <= t.total
              && TextBehind(RunAll(cfg, w, calls), a).value == MI.Rewritten(s, x)
              && TextBehind(RunAll(cfg, w, calls), b).value == MI.Rewritten(t, y)
  {
    hide Step, LegalRun, RunAll, Classify, MI.Rewritten;
    EveryRunIsSafe(cfg, w, calls);
    var end := RunAll(cfg, w, calls);
    var s: MV.Snapshot, x: string :| s.total == end.memory.value.limit && s.available <= s.total
                                     && TextBehind(end, a).value == MI.Rewritten(s, x);
    var t: MV.Snapshot, y: string :| t.total == end.memory.value.limit && t.available <= t.total
                                     && TextBehind(end, b).value == MI.Rewritten(t, y);
  }

  // ----- an instance

  /** A process with nothing open, whose container has used nothing of its 1000 bytes. */
  function QuietWorld(): World {
    World(map[], map[], map[], [], Some(CG.Memory(2, 1000, 0, "limit", "usage")), [])
  }

  function QuietConfig(): Config {
    Config(true, true, false, true, AllowedGpus(false, []))
  }

  function QuietFiles(): CG.FileSystem {
    map["usage" := Print(0) + "\n", MEMINFO := "x"]
  }

  /** The end-to-end theorem is about something: here it says that a program which opens
      /proc/meminfo and reads ten bytes gets the one byte the real file holds. */
  lemma QuietProcessReads()
    ensures var call := Open(MEMINFO, false, true, QuietFiles(), 3, true);
            var cfg, w, calls := QuietConfig(), QuietWorld(), [Read(3, 10)];
            && Safe(cfg, w) && Legal(w, call) && OpensMeminfo(cfg, w, call) && Built(w.memory, call.files).1.Some?
            && LegalRun(cfg, Step(cfg, w, call), calls) && AllLeaveAlone(calls, call.rc)
            && BytesRead(cfg, Step(cfg, w, call), call.rc, calls) == "x"
  {
    hide Step, Built, QuietFiles, QuietWorld, QuietConfig, MI.Rewritten, MV.Next, Safe, ShowsNumbers, Legal, LegalRun;
    hide OpensMeminfo;
    var call := Open(MEMINFO, false, true, QuietFiles(), 3, true);
    var cfg, w := QuietConfig(), QuietWorld();
    QuietBuilt();
    QuietIsSafe();
    ReadIsLegal(cfg, Step(cfg, w, call), 3, 10);
    MeminfoEndToEnd(cfg, w, call, [Read(3, 10)]);
  }

  lemma QuietIsSafe()
    ensures var call := Open(MEMINFO, false, true, QuietFiles(), 3, true);
            && Safe(QuietConfig(), QuietWorld()) && Legal(QuietWorld(), call)
            && OpensMeminfo(QuietConfig(), QuietWorld(), call)
            && MEMINFO in QuietFiles() && QuietFiles()[MEMINFO] == "x"
  {
    hide ShowsMemory;
  }

  lemma ReadIsLegal(cfg: Config, w: World, fd: int, count: nat)
    ensures var calls := [Read(fd, count)];
            LegalRun(cfg, w, calls) && AllLeaveAlone(calls, fd) && BytesWanted(fd, calls) == count
  {
    hide Step;
    var calls := [Read(fd, count)];
    assert calls[1..] == [];
    assert BytesWanted(fd, calls[1..]) == 0;
  }

  lemma QuietBuilt()
    ensures var w, files := QuietWorld(), QuietFiles();
            && MV.Next(w.memory, files).1.Some? && Built(w.memory, files).1 == Some("x")
            && MI.Rewritten(MV.Next(w.memory, files).1.value, "x") == "x"
  {
    CG.PrintedFileReads(QuietFiles(), "usage", 0);
    var s := MV.Next(QuietWorld().memory, QuietFiles()).1.value;
    assert MI.IsLine("x");
    MI.RewrittenOneLine(s, "x");
    assert MI.TargetOf("x") == None;
  }
}
