/** The intercepted calls as steps over a kernel descriptor table, the GPU tracker, the virtual
    file table, the detected memory and the learned GPU ids, and what every run of them keeps. */
module Hooks {
  import opened Text
  import opened PathNormalizer
  import opened GpuPaths
  import opened RelativePaths
  import CG = Cgroup
  import FT = FdTracker
  import IO = IoctlFilter
  import MI = Meminfo
  import MV = MemoryView
  import VF = VirtualFiles

  const AT_FDCWD := -100
  const MEMINFO := "/proc/meminfo"
  /** The buffer a rewritten /proc/meminfo has to fit. */
  const MEMINFO_SIZE := 65536

  /** The switches and the topology fixed when the library is loaded. */
  datatype Config = Config(gpuVideo: bool, gpuIoctl: bool, filterReady: bool, cgroupMemory: bool, allowed: AllowedGpus)

  /** Where a file lies lexically: the segments from the root. */
  type Place = seq<string>

  /** Who opened a file: a parent process; a hook that returns a descriptor, and so judges and
      tracks; or a stream hook, which does neither, and which opens either the named file or a
      file in memory that holds the rewritten /proc/meminfo. */
  datatype Opener = Inherited | Descriptor | Stream | MemoryStream(text: string)

  /** An open file remembers the effective path it was opened by, and where the kernel found
      it: a relative name starts at its directory, whatever the hook made of it. */
  datatype OpenFile = OpenFile(path: string, place: Place, isDir: bool, via: Opener)

  type Kernel = map<int, OpenFile>

  datatype World = World(kernel: Kernel, tracker: FT.FdMap, virtual: VF.Files,
                         cwd: Place, memory: Option<CG.Memory>, learned: seq<IO.U32>)

  /** A call with the kernel's answer `rc`, should the hook ask for it. `readable` says whether
      the open flags let the file be read, `files` is what control files and the real
      /proc/meminfo hold at that time, `alloc` the outcome of malloc, `memfd` that of preparing a
      file in memory. The kernel's chdir and libc's fclose are not intercepted, but relative
      names and stream descriptors depend on them. */
  datatype Call =
    | Open(path: string, isDir: bool, readable: bool, files: CG.FileSystem, rc: int, alloc: bool)
    | OpenAt(dirFd: int, path: string, isDir: bool, readable: bool, files: CG.FileSystem, rc: int, alloc: bool)
    | OpenDir(path: string, rc: int, alloc: bool)
    | FOpen(path: string, isDir: bool, readOnly: bool, memfd: bool, files: CG.FileSystem, rc: int)
    | FClose(fd: int)
    | Close(fd: int)
    | CloseDir(fd: int, closed: bool)
    | Dup(oldFd: int, rc: int, alloc: bool)
    | Dup2(oldFd: int, newFd: int, rc: int, alloc: bool)
    | Dup3(oldFd: int, newFd: int, rc: int, alloc: bool)
    | Read(fd: int, count: nat)
    | AskMemory(files: CG.FileSystem)
    | Ioctl(fd: int, result: int, reply: IO.Reply)
    | ChangeDir(place: Place)

  predicate Absolute(path: string) {
    path != "" && path[0] == '/'
  }

  predicate Denied(cfg: Config, path: string) {
    cfg.gpuVideo && cfg.filterReady && Absolute(path) && Decide(cfg.allowed, path) == Deny
  }

  // ----- the hooks as functions

  function Opened(kernel: Kernel, rc: int, file: OpenFile): Kernel {
    if rc >= 0 then kernel[rc := file] else kernel
  }

  /** The file the kernel finds for a name below `dirFd`, without symbolic links. */
  function Target(w: World, dirFd: int, path: string): Place {
    var start := if Absolute(path) then []
                 else if dirFd == AT_FDCWD then w.cwd
                 else if dirFd in w.kernel then w.kernel[dirFd].place
                 else [];
    Walk(start, Tokens(path, '/'))
  }

  /** The memory known after building /proc/meminfo, and the text, if it could be built. */
  function Built(memory: Option<CG.Memory>, files: CG.FileSystem): (Option<CG.Memory>, Option<string>) {
    var (known, snapshot) := MV.Next(memory, files);
    if snapshot.Some? && MEMINFO in files && |MI.Rewritten(snapshot.value, files[MEMINFO])| <= MEMINFO_SIZE
    then (known, Some(MI.Rewritten(snapshot.value, files[MEMINFO]))) else (known, None)
  }

  predicate Virtualizes(cfg: Config, path: string, readable: bool, rc: int) {
    rc >= 0 && path == MEMINFO && cfg.cgroupMemory && readable
  }

  /** The world with /proc/meminfo attached to a descriptor, if it is one to be virtualized. */
  function Attach(
    cfg: Config, w: World, path: string, readable: bool, files: CG.FileSystem, rc: int, alloc: bool): World
  {
    if !Virtualizes(cfg, path, readable, rc) then w
    else
      var (known, text) := Built(w.memory, files);
      w.(memory := known,
         virtual := if text.Some? then VF.Apply(w.virtual, VF.Put(rc, text.value, alloc)) else w.virtual)
  }

  function Track(cfg: Config, tracker: FT.FdMap, path: string, rc: int, alloc: bool): FT.FdMap {
    if !cfg.gpuVideo || rc < 0 then tracker else FT.Recorded(tracker, rc, path, alloc)
  }

  function CopiedRecord(tracker: FT.FdMap, oldFd: int, newFd: int, alloc: bool): FT.FdMap {
    if alloc || oldFd !in tracker || newFd in tracker then FT.Copied(tracker, oldFd, newFd) else tracker
  }

  function Lookup(tracker: FT.FdMap, fd: int): Option<FdRecord> {
    if fd in tracker then Some(tracker[fd]) else None
  }

  /** The kernel's answer and the record of a freshly opened descriptor. */
  function OpenedAndTracked(cfg: Config, w: World, rc: int, file: OpenFile, alloc: bool): World {
    w.(kernel := Opened(w.kernel, rc, file), tracker := Track(cfg, w.tracker, file.path, rc, alloc))
  }

  /** What openat does after the effective path is known and not denied. */
  function OpenedAt(cfg: Config, w: World, call: Call, effective: string): World
    requires call.OpenAt?
  {
    var file := OpenFile(effective, Target(w, call.dirFd, call.path), call.isDir, Descriptor);
    var next := if Absolute(effective) || call.dirFd == AT_FDCWD
                then OpenedAndTracked(cfg, w, call.rc, file, call.alloc)
                else w.(kernel := Opened(w.kernel, call.rc, file));
    if call.dirFd == AT_FDCWD
    then Attach(cfg, next, call.path, call.readable, call.files, call.rc, call.alloc) else next
  }

  predicate VirtualizesStream(cfg: Config, call: Call)
    requires call.FOpen?
  {
    call.path == MEMINFO && cfg.cgroupMemory && call.readOnly
  }

  /** The file behind the stream of fopen: nothing is decided, nothing is tracked. */
  function StreamFile(cfg: Config, w: World, call: Call): OpenFile
    requires call.FOpen?
  {
    if VirtualizesStream(cfg, call) && call.memfd && Built(w.memory, call.files).1.Some?
    then OpenFile("", [], false, MemoryStream(Built(w.memory, call.files).1.value))
    else OpenFile(call.path, Target(w, AT_FDCWD, call.path), call.isDir, Stream)
  }

  function StreamOpened(cfg: Config, w: World, call: Call): World
    requires call.FOpen?
  {
    w.(kernel := Opened(w.kernel, call.rc, StreamFile(cfg, w, call)),
       memory := if VirtualizesStream(cfg, call) then Built(w.memory, call.files).0 else w.memory)
  }

  /** The filter for RM replies sees the allowed set only once the topology is known. */
  function IoctlConfig(cfg: Config): IO.Config {
    IO.Config(cfg.gpuVideo, cfg.gpuIoctl, if cfg.filterReady then cfg.allowed else AllowedGpus(false, []))
  }

  /** ioctl replies go through the learning filter. */
  predicate FiltersIoctl(cfg: Config, w: World, fd: int) {
    cfg.gpuVideo && cfg.gpuIoctl && fd in w.tracker && w.tracker[fd].kind == NvidiaCtl
  }

  function Step(cfg: Config, w: World, call: Call): World {
    match call
    case Open(path, isDir, readable, files, rc, alloc) =>
      if Denied(cfg, path) then w
      else
        var file := OpenFile(path, Target(w, AT_FDCWD, path), isDir, Descriptor);
        Attach(cfg, OpenedAndTracked(cfg, w, rc, file, alloc), path, readable, files, rc, alloc)
    case OpenAt(dirFd, path, _, _, _, _, _) =>
      (match EffectivePath(Lookup(w.tracker, dirFd), path)
       case Refused => w
       case Passthrough(effective) => if Denied(cfg, effective) then w else OpenedAt(cfg, w, call, effective)
       case Resolved(effective) => if Denied(cfg, effective) then w else OpenedAt(cfg, w, call, effective))
    case OpenDir(path, rc, alloc) =>
      if Denied(cfg, path) then w
      else OpenedAndTracked(cfg, w, rc, OpenFile(path, Target(w, AT_FDCWD, path), true, Descriptor), alloc)
    case FOpen(_, _, _, _, _, _) => StreamOpened(cfg, w, call)
    case FClose(fd) => w.(kernel := w.kernel - {fd})
    case Close(fd) => w.(kernel := w.kernel - {fd}, tracker := w.tracker - {fd}, virtual := w.virtual - {fd})
    case CloseDir(fd, closed) =>
      if closed then w.(kernel := w.kernel - {fd}, tracker := w.tracker - {fd}) else w
    case Dup(oldFd, rc, alloc) =>
      if rc >= 0 && oldFd in w.kernel
      then w.(kernel := w.kernel[rc := w.kernel[oldFd]], tracker := CopiedRecord(w.tracker, oldFd, rc, alloc))
      else w
    case Dup2(oldFd, newFd, rc, alloc) =>
      if rc >= 0 && oldFd in w.kernel && oldFd != newFd then Replaced(w, oldFd, newFd, alloc) else w
    case Dup3(oldFd, newFd, rc, alloc) =>
      if rc >= 0 && oldFd in w.kernel then Replaced(w, oldFd, newFd, alloc) else w
    case Read(fd, count) => w.(virtual := VF.Apply(w.virtual, VF.Read(fd, count)))
    case AskMemory(files) => if cfg.cgroupMemory then w.(memory := MV.Next(w.memory, files).0) else w
    case Ioctl(fd, result, reply) =>
      if FiltersIoctl(cfg, w, fd) then w.(learned := IO.Learned(IoctlConfig(cfg), w.learned, result, reply)) else w
    case ChangeDir(place) => w.(cwd := place)
  }

  /** `newFd` now stands for the open file of `oldFd`. */
  function Replaced(w: World, oldFd: int, newFd: int, alloc: bool): World
    requires oldFd in w.kernel
  {
    w.(kernel := w.kernel[newFd := w.kernel[oldFd]], tracker := CopiedRecord(w.tracker, oldFd, newFd, alloc),
       virtual := w.virtual - {newFd})
  }

  /** The kernel's side: new descriptors are unused, a relative name needs an open directory,
      duplication an open source, dup3 refuses equal descriptors, closedir closes a directory,
      and /proc/meminfo is none. Replies have the array sizes of the C structures. And the
      program's side: it frees a descriptor that a descriptor hook has opened through close,
      closedir, dup2 or dup3, never behind their back; fclose is for streams that fopen opened. */
  predicate Legal(w: World, call: Call) {
    match call
    case Open(path, isDir, _, _, rc, _) => (rc >= 0 ==> rc !in w.kernel) && (path == MEMINFO ==> !isDir)
    case OpenAt(dirFd, path, isDir, _, _, rc, _) =>
      && (rc >= 0 ==> rc !in w.kernel) && (path == MEMINFO ==> !isDir)
      && (rc >= 0 && !Absolute(path) && dirFd != AT_FDCWD ==> dirFd in w.kernel)
    case OpenDir(path, rc, _) => (rc >= 0 ==> rc !in w.kernel) && (path == MEMINFO ==> rc < 0)
    case FOpen(_, _, _, _, _, rc) => rc >= 0 ==> rc !in w.kernel
    case FClose(fd) => fd in w.kernel ==> IsStream(w.kernel[fd])
    case Close(_) => true
    case CloseDir(fd, closed) => closed ==> fd in w.kernel && w.kernel[fd].isDir
    case Dup(oldFd, rc, _) => rc >= 0 ==> oldFd in w.kernel && rc !in w.kernel
    case Dup2(oldFd, newFd, rc, _) => rc >= 0 ==> oldFd in w.kernel && rc == newFd
    case Dup3(oldFd, newFd, rc, _) => rc >= 0 ==> oldFd in w.kernel && rc == newFd && oldFd != newFd
    case Read(_, _) => true
    case AskMemory(_) => true
    case Ioctl(_, _, reply) => IO.Sized(reply)
    case ChangeDir(_) => true
  }

  predicate IsStream(file: OpenFile) {
    file.via.Stream? || file.via.MemoryStream?
  }

  predicate Allocates(call: Call) {
    (call.Open? || call.OpenAt? || call.OpenDir? || call.Dup? || call.Dup2? || call.Dup3?) ==> call.alloc
  }

  // ----- the invariants

  /** The paths of the descriptors that the descriptor hooks have opened. */
  function Paths(kernel: Kernel): map<int, string> {
    map fd | fd in kernel && kernel[fd].via.Descriptor? :: kernel[fd].path
  }

  /** The tracker a kernel table calls for. */
  function Expected(cfg: Config, kernel: Kernel): FT.FdMap {
    if cfg.gpuVideo then FT.RecordsOf(Paths(kernel)) else map[]
  }

  /** Every tracked descriptor is open and holds the record of the path it was opened by. */
  ghost predicate TrackerSound(cfg: Config, kernel: Kernel, tracker: FT.FdMap) {
    forall fd :: fd in tracker ==> fd in Expected(cfg, kernel) && tracker[fd] == Expected(cfg, kernel)[fd]
  }

  /** An effective path that is absolute leads where the kernel went, and the descriptor hooks
      have opened nothing by a path the filter denies. A stream in memory shows the detected
      memory. Nothing is known of inherited files. */
  ghost predicate FileOk(cfg: Config, memory: Option<CG.Memory>, file: OpenFile) {
    match file.via
    case Inherited => true
    case Descriptor => (Absolute(file.path) ==> file.place == Location(file.path)) && !Denied(cfg, file.path)
    case Stream => Absolute(file.path) ==> file.place == Location(file.path)
    case MemoryStream(text) => file.path == "" && file.place == [] && !file.isDir && ShowsMemory(memory, text)
  }

  ghost predicate KernelOk(cfg: Config, memory: Option<CG.Memory>, kernel: Kernel) {
    forall fd :: fd in kernel ==> fd >= 0 && FileOk(cfg, memory, kernel[fd])
  }

  /** `data` is some meminfo text, rewritten to a snapshot of the detected memory. */
  ghost predicate ShowsMemory(memory: Option<CG.Memory>, data: string) {
    memory.Some? && exists s: MV.Snapshot, text: string ::
      s.total == memory.value.limit && s.available <= s.total && data == MI.Rewritten(s, text)
  }

  /** Virtual contents belong to open descriptors of /proc/meminfo, show the detected memory and
      are read within bounds. */
  ghost predicate VirtualSound(kernel: Kernel, memory: Option<CG.Memory>, virtual: VF.Files) {
    forall fd :: fd in virtual ==>
      && fd in kernel && kernel[fd].via.Descriptor? && kernel[fd].path == MEMINFO && !kernel[fd].isDir
      && virtual[fd].offset <= |virtual[fd].data| && ShowsMemory(memory, virtual[fd].data)
  }

  ghost predicate Safe(cfg: Config, w: World) {
    && TrackerSound(cfg, w.kernel, w.tracker) && KernelOk(cfg, w.memory, w.kernel)
    && VirtualSound(w.kernel, w.memory, w.virtual)
    && MV.Finite(w.memory) && IO.IdsOk(w.learned)
  }

  /** With allocation succeeding the tracker is exactly what the kernel table calls for. */
  ghost predicate Exact(cfg: Config, w: World) {
    w.tracker == Expected(cfg, w.kernel)
  }

  lemma RelativeIsNotTracked(path: string)
    requires !Absolute(path)
    ensures !Classify(path).found
  {
  }

  // ----- one step at a time

  /** Recording a freshly opened descriptor, or dropping what is recorded for it. */
  lemma TrackOpened(cfg: Config, kernel: Kernel, tracker: FT.FdMap, file: OpenFile, rc: int, alloc: bool)
    requires file.via.Descriptor? && (rc >= 0 ==> rc !in kernel) && TrackerSound(cfg, kernel, tracker)
    ensures var k', t' := Opened(kernel, rc, file), Track(cfg, tracker, file.path, rc, alloc);
            TrackerSound(cfg, k', t') && (alloc && tracker == Expected(cfg, kernel) ==> t' == Expected(cfg, k'))
  {
    hide Classify, FT.RecordsOf;
    if rc >= 0 {
      assert Paths(kernel[rc := file]) == Paths(kernel)[rc := file.path];
      FT.RecordsOfOpened(Paths(kernel), rc, file.path);
      assert tracker - {rc} == tracker;
    }
  }

  /** A relative name below an untracked descriptor, or a stream, is opened without any tracking. */
  lemma UntrackedOpened(cfg: Config, kernel: Kernel, tracker: FT.FdMap, file: OpenFile, rc: int)
    requires (rc >= 0 ==> rc !in kernel) && TrackerSound(cfg, kernel, tracker)
    requires file.via.Descriptor? ==> !Absolute(file.path)
    ensures var k' := Opened(kernel, rc, file);
            TrackerSound(cfg, k', tracker) && (tracker == Expected(cfg, kernel) ==> tracker == Expected(cfg, k'))
  {
    if file.via.Descriptor? {
      RelativeIsNotTracked(file.path);
    }
    hide Classify;
  }

  lemma CopyTracked(cfg: Config, kernel: Kernel, tracker: FT.FdMap, oldFd: int, newFd: int, alloc: bool)
    requires oldFd in kernel && oldFd >= 0 && newFd >= 0 && TrackerSound(cfg, kernel, tracker)
    ensures var k', t' := kernel[newFd := kernel[oldFd]], CopiedRecord(tracker, oldFd, newFd, alloc);
            oldFd != newFd ==>
              TrackerSound(cfg, k', t') && (alloc && tracker == Expected(cfg, kernel) ==> t' == Expected(cfg, k'))
  {
    hide Classify;
  }

  /** A new snapshot has the old total, so contents built before still show the memory. */
  lemma MemoryRefreshed(cfg: Config, w: World, files: CG.FileSystem)
    requires Safe(cfg, w)
    ensures Safe(cfg, w.(memory := MV.Next(w.memory, files).0))
  {
    hide MV.Next, MI.Rewritten, TrackerSound, Denied, Location;
    MV.NextKeepsLimit(w.memory, files);
    assert forall data :: ShowsMemory(w.memory, data) ==> ShowsMemory(MV.Next(w.memory, files).0, data);
    hide ShowsMemory;
  }

  lemma BuiltShowsMemory(memory: Option<CG.Memory>, files: CG.FileSystem)
    requires MV.Finite(memory)
    ensures Built(memory, files).0 == MV.Next(memory, files).0
    ensures var (known, text) := Built(memory, files); text.Some? ==> ShowsMemory(known, text.value)
  {
    hide MV.Next, MI.Rewritten;
    MV.NextKeepsLimit(memory, files);
  }

  lemma AttachKeepsTables(
    cfg: Config, w: World, path: string, readable: bool, files: CG.FileSystem, rc: int, alloc: bool)
    ensures var next := Attach(cfg, w, path, readable, files, rc, alloc);
            next.kernel == w.kernel && next.tracker == w.tracker && next.cwd == w.cwd && next.learned == w.learned
  {
    hide Built, VF.Apply;
  }

  /** Attaching does not look at the tracker, so it may as well come before tracking. */
  lemma AttachBeforeTrack(
    cfg: Config, w: World, path: string, readable: bool, files: CG.FileSystem, rc: int, alloc: bool, tracker: FT.FdMap)
    ensures Attach(cfg, w, path, readable, files, rc, alloc).(tracker := tracker) ==
            Attach(cfg, w.(tracker := tracker), path, readable, files, rc, alloc)
  {
    hide Built, VF.Apply;
  }

  lemma OpenedAtTables(cfg: Config, w: World, call: Call, effective: string)
    requires call.OpenAt?
    ensures var file := OpenFile(effective, Target(w, call.dirFd, call.path), call.isDir, Descriptor);
            var next := OpenedAt(cfg, w, call, effective);
            && next.kernel == Opened(w.kernel, call.rc, file)
            && next.tracker == if Absolute(effective) || call.dirFd == AT_FDCWD
                               then Track(cfg, w.tracker, effective, call.rc, call.alloc) else w.tracker
  {
    hide Attach, Target, Track;
    var file := OpenFile(effective, Target(w, call.dirFd, call.path), call.isDir, Descriptor);
    var next := if Absolute(effective) || call.dirFd == AT_FDCWD
                then OpenedAndTracked(cfg, w, call.rc, file, call.alloc)
                else w.(kernel := Opened(w.kernel, call.rc, file));
    AttachKeepsTables(cfg, next, call.path, call.readable, call.files, call.rc, call.alloc);
  }

  lemma AttachKeepsSafe(cfg: Config, w: World, path: string, readable: bool, files: CG.FileSystem, rc: int, alloc: bool)
    requires Safe(cfg, w)
    requires rc >= 0 && path == MEMINFO ==>
               rc in w.kernel && w.kernel[rc].via.Descriptor? && w.kernel[rc].path == MEMINFO && !w.kernel[rc].isDir
    ensures var next := Attach(cfg, w, path, readable, files, rc, alloc);
            Safe(cfg, next) && next.kernel == w.kernel && next.tracker == w.tracker
  {
    hide TrackerSound, KernelOk, MV.Finite, ShowsMemory, Built, MV.Next;
    if Virtualizes(cfg, path, readable, rc) {
      MemoryRefreshed(cfg, w, files);
      BuiltShowsMemory(w.memory, files);
    }
  }

  /** A freshly opened descriptor says nothing about the others. */
  lemma OpenedKeepsVirtual(w: World, file: OpenFile, rc: int)
    requires (rc >= 0 ==> rc !in w.kernel) && VirtualSound(w.kernel, w.memory, w.virtual)
    ensures VirtualSound(Opened(w.kernel, rc, file), w.memory, w.virtual)
  {
    hide ShowsMemory;
  }

  lemma OpenKeepsSafe(cfg: Config, w: World, file: OpenFile, rc: int, alloc: bool)
    requires Safe(cfg, w) && (rc >= 0 ==> rc !in w.kernel) && FileOk(cfg, w.memory, file) && file.via.Descriptor?
    ensures var next := OpenedAndTracked(cfg, w, rc, file, alloc);
            Safe(cfg, next) && (Exact(cfg, w) && alloc ==> Exact(cfg, next))
  {
    hide TrackerSound, Expected, Track, VirtualSound, MV.Finite, FileOk;
    TrackOpened(cfg, w.kernel, w.tracker, file, rc, alloc);
    OpenedKeepsVirtual(w, file, rc);
  }

  lemma OpenUntrackedKeepsSafe(cfg: Config, w: World, file: OpenFile, rc: int)
    requires Safe(cfg, w) && (rc >= 0 ==> rc !in w.kernel) && FileOk(cfg, w.memory, file)
    requires file.via.Descriptor? ==> !Absolute(file.path)
    ensures var next := w.(kernel := Opened(w.kernel, rc, file));
            Safe(cfg, next) && (Exact(cfg, w) ==> Exact(cfg, next))
  {
    hide TrackerSound, Expected, VirtualSound, MV.Finite, FileOk;
    UntrackedOpened(cfg, w.kernel, w.tracker, file, rc);
    OpenedKeepsVirtual(w, file, rc);
  }

  lemma TargetOfAbsolute(w: World, dirFd: int, path: string)
    requires Absolute(path)
    ensures Target(w, dirFd, path) == Location(path)
  {
    WalkIsSurvivors(Tokens(path, '/'));
  }

  /** Below a tracked directory the effective path is absolute and leads where the kernel goes
      from the directory's own open file. */
  lemma ResolvedLeadsToTarget(cfg: Config, w: World, dirFd: int, path: string)
    requires Safe(cfg, w) && EffectivePath(Lookup(w.tracker, dirFd), path).Resolved? && dirFd != AT_FDCWD
    ensures var q := EffectivePath(Lookup(w.tracker, dirFd), path).path;
            Absolute(q) && Location(q) == Target(w, dirFd, path)
  {
    OpenatFollowsDirectory(cfg, w, dirFd, path);
    hide Classify, Decide, Normalize, Resolve, Tokens, Survivors, Walk;
    var record := w.tracker[dirFd];
    assert FileOk(cfg, w.memory, w.kernel[dirFd]);
    LocationOfNormalized(w.kernel[dirFd].path);
    LocationOfNormalized(record.path + "/" + path);
    NormalizedIsAbsolute(w.kernel[dirFd].path, record.path);
    NormalizedIsAbsolute(record.path + "/" + path, EffectivePath(Some(record), path).path);
    LocationOfJoined(record.path, path);
  }

  lemma NormalizedIsAbsolute(path: string, q: string)
    requires Normalize(path, PATH_MAX) == Some(q)
    ensures Absolute(path) && Absolute(q)
  {
    NormalizeIdempotent(path, PATH_MAX, q);
  }

  lemma LocationOfJoined(dir: string, path: string)
    ensures Location(dir + "/" + path) == Walk(Location(dir), Tokens(path, '/'))
  {
    TokensOfJoined(dir, path, '/');
    WalkConcat([], Tokens(dir, '/'), Tokens(path, '/'));
    WalkIsSurvivors(Tokens(dir, '/'));
    WalkIsSurvivors(Tokens(dir, '/') + Tokens(path, '/'));
  }

  /** A relative name leads where the join with its directory's name leads: the working directory,
      or the one behind the descriptor. */
  lemma RelativeTarget(w: World, dirFd: int, dir: string, path: string)
    requires !Absolute(path)
    requires if dirFd == AT_FDCWD then w.cwd == Location(dir)
             else dirFd in w.kernel && w.kernel[dirFd].place == Location(dir)
    ensures Target(w, dirFd, path) == Location(dir + "/" + path)
  {
    LocationOfJoined(dir, path);
  }

  /** In every safe world a tracked directory stands for its own open file: its record's path
      is the normal form of the path it was opened by, so a relative openat below it opens
      the lexical join, or is refused exactly when the walk climbs out or does not fit. */
  lemma OpenatFollowsDirectory(cfg: Config, w: World, dirFd: int, path: string)
    requires Safe(cfg, w) && dirFd in w.tracker && !Absolute(path)
    requires w.tracker[dirFd].kind == ProcGpusDir || w.tracker[dirFd].kind == ProcGpuBusDir
    ensures var record := w.tracker[dirFd];
            && dirFd in w.kernel && w.kernel[dirFd].via.Descriptor?
            && Normalize(w.kernel[dirFd].path, PATH_MAX) == Some(record.path)
            && PlainRecord(record) && StartSegments(record).Some?
            && EffectivePath(Some(record), path) ==
                 if ClimbsAboveBase(record, path) then Refused
                 else match Normalize(record.path + "/" + path, PATH_MAX)
                      case None => Refused
                      case Some(q) => Resolved(q)
  {
    hide Decide, Normalize, Resolve, VirtualSound, KernelOk;
    var record := w.tracker[dirFd];
    assert Classify(w.kernel[dirFd].path) == Classification(true, record) by {
      hide Classify;
    }
    hide Classify;
    ProcRecordShape(w.kernel[dirFd].path);
    ResolveIsNormalizeOfJoined(record, path, PATH_MAX);
  }

  lemma EffectiveShape(tracked: Option<FdRecord>, path: string)
    ensures var e := EffectivePath(tracked, path);
            (e.Passthrough? ==> e.path == path) && (e.Resolved? ==> !Absolute(path) && tracked.Some?)
  {
  }

  /** The file openat opens is recorded by an effective path that leads to it. */
  lemma OpenAtFileOk(cfg: Config, w: World, dirFd: int, path: string, isDir: bool)
    requires Safe(cfg, w)
    requires var e := EffectivePath(Lookup(w.tracker, dirFd), path); !e.Refused? && !Denied(cfg, e.path)
    ensures var e := EffectivePath(Lookup(w.tracker, dirFd), path);
            FileOk(cfg, w.memory, OpenFile(e.path, Target(w, dirFd, path), isDir, Descriptor))
  {
    hide Denied, EffectivePath, Target, VirtualSound, Classify, Location;
    EffectiveShape(Lookup(w.tracker, dirFd), path);
    var e := EffectivePath(Lookup(w.tracker, dirFd), path);
    if e.Resolved? {
      assert dirFd in w.kernel && dirFd >= 0;
      ResolvedLeadsToTarget(cfg, w, dirFd, path);
    } else if Absolute(path) {
      TargetOfAbsolute(w, dirFd, path);
    }
  }

  lemma OpenAtKeepsSafe(cfg: Config, w: World, call: Call, effective: string)
    requires call.OpenAt? && Safe(cfg, w) && Legal(w, call)
    requires FileOk(cfg, w.memory, OpenFile(effective, Target(w, call.dirFd, call.path), call.isDir, Descriptor))
    requires effective == call.path || (Absolute(effective) && !Absolute(call.path))
    ensures Safe(cfg, OpenedAt(cfg, w, call, effective))
    ensures Exact(cfg, w) && call.alloc ==> Exact(cfg, OpenedAt(cfg, w, call, effective))
  {
    hide Safe, FileOk, Attach, Target, Track, Expected;
    var file := OpenFile(effective, Target(w, call.dirFd, call.path), call.isDir, Descriptor);
    var next := if Absolute(effective) || call.dirFd == AT_FDCWD
                then OpenedAndTracked(cfg, w, call.rc, file, call.alloc)
                else w.(kernel := Opened(w.kernel, call.rc, file));
    if Absolute(effective) || call.dirFd == AT_FDCWD {
      OpenKeepsSafe(cfg, w, file, call.rc, call.alloc);
    } else {
      OpenUntrackedKeepsSafe(cfg, w, file, call.rc);
    }
    AttachKeepsSafe(cfg, next, call.path, call.readable, call.files, call.rc, call.alloc);
  }

  lemma CloseKeepsSafe(cfg: Config, w: World, fd: int, virtual: VF.Files)
    requires Safe(cfg, w)
    requires virtual == w.virtual - {fd} || (virtual == w.virtual && fd !in w.virtual)
    ensures var next := w.(kernel := w.kernel - {fd}, tracker := w.tracker - {fd}, virtual := virtual);
            Safe(cfg, next) && (Exact(cfg, w) ==> Exact(cfg, next))
  {
    hide Classify, FileOk, ShowsMemory, MV.Finite;
  }

  lemma DupKeepsSafe(cfg: Config, w: World, oldFd: int, newFd: int, alloc: bool, virtual: VF.Files)
    requires Safe(cfg, w) && oldFd in w.kernel && newFd >= 0 && oldFd != newFd
    requires virtual == w.virtual - {newFd} || (virtual == w.virtual && newFd !in w.virtual)
    ensures var next := w.(kernel := w.kernel[newFd := w.kernel[oldFd]],
                           tracker := CopiedRecord(w.tracker, oldFd, newFd, alloc), virtual := virtual);
            Safe(cfg, next) && (Exact(cfg, w) && alloc ==> Exact(cfg, next))
  {
    hide Classify, CopiedRecord, TrackerSound, Expected, FileOk, ShowsMemory, MV.Finite;
    CopyTracked(cfg, w.kernel, w.tracker, oldFd, newFd, alloc);
  }

  lemma ReadKeepsSafe(cfg: Config, w: World, fd: int, count: nat)
    requires Safe(cfg, w)
    ensures Safe(cfg, w.(virtual := VF.Apply(w.virtual, VF.Read(fd, count))))
  {
    hide TrackerSound, KernelOk, ShowsMemory, MV.Finite;
  }

  lemma IoctlKeepsSafe(cfg: Config, w: World, result: int, reply: IO.Reply)
    requires Safe(cfg, w)
    ensures Safe(cfg, w.(learned := IO.Learned(IoctlConfig(cfg), w.learned, result, reply)))
  {
    hide TrackerSound, KernelOk, VirtualSound, MV.Finite, IO.IdsOk, IO.Learn;
    if reply.CardInfo? {
      IO.LearnKeepsIds(IoctlConfig(cfg).allowed, w.learned, reply.cards);
    }
  }

  lemma OpenFileOk(cfg: Config, w: World, path: string, isDir: bool)
    requires !Denied(cfg, path)
    ensures FileOk(cfg, w.memory, OpenFile(path, Target(w, AT_FDCWD, path), isDir, Descriptor))
  {
    hide Denied, Target, Location;
    if Absolute(path) {
      TargetOfAbsolute(w, AT_FDCWD, path);
    }
  }

  lemma StreamKeepsSafe(cfg: Config, w: World, call: Call)
    requires Safe(cfg, w) && call.FOpen? && Legal(w, call)
    ensures var next := StreamOpened(cfg, w, call); Safe(cfg, next) && (Exact(cfg, w) ==> Exact(cfg, next))
  {
    hide TrackerSound, Expected, KernelOk, VirtualSound, MV.Finite, MV.Next, Built, ShowsMemory, Target, Location;
    var w' := if VirtualizesStream(cfg, call) then w.(memory := Built(w.memory, call.files).0) else w;
    if VirtualizesStream(cfg, call) {
      MemoryRefreshed(cfg, w, call.files);
      BuiltShowsMemory(w.memory, call.files);
    }
    if Absolute(call.path) {
      TargetOfAbsolute(w, AT_FDCWD, call.path);
    }
    OpenUntrackedKeepsSafe(cfg, w', StreamFile(cfg, w, call), call.rc);
  }

  /** A stream was never tracked, so libc may free its descriptor without telling anyone. */
  lemma FCloseKeepsSafe(cfg: Config, w: World, fd: int)
    requires Safe(cfg, w) && Legal(w, FClose(fd))
    ensures var next := w.(kernel := w.kernel - {fd}); Safe(cfg, next) && (Exact(cfg, w) ==> Exact(cfg, next))
  {
    hide Classify, FileOk, ShowsMemory, MV.Finite;
    if fd in w.kernel {
      assert Paths(w.kernel - {fd}) == Paths(w.kernel);
    } else {
      assert w.kernel - {fd} == w.kernel;
    }
  }

  lemma StepKeepsSafe(cfg: Config, w: World, call: Call)
    requires Safe(cfg, w) && Legal(w, call)
    ensures Safe(cfg, Step(cfg, w, call))
    ensures Exact(cfg, w) && Allocates(call) ==> Exact(cfg, Step(cfg, w, call))
  {
    hide Classify, EffectivePath, Track, CopiedRecord, Attach, TrackerSound, Expected, Denied, Target, FileOk,
         ShowsMemory, MV.Next, MV.Finite, IO.Learned, IO.IdsOk;
    match call
    case Open(path, isDir, readable, files, rc, alloc) =>
      if !Denied(cfg, path) {
        var file := OpenFile(path, Target(w, AT_FDCWD, path), isDir, Descriptor);
        OpenFileOk(cfg, w, path, isDir);
        OpenKeepsSafe(cfg, w, file, rc, alloc);
        AttachKeepsSafe(cfg, OpenedAndTracked(cfg, w, rc, file, alloc), path, readable, files, rc, alloc);
      }
    case OpenAt(dirFd, path, isDir, _, _, rc, alloc) =>
      var e := EffectivePath(Lookup(w.tracker, dirFd), path);
      EffectiveShape(Lookup(w.tracker, dirFd), path);
      if !e.Refused? && !Denied(cfg, e.path) {
        OpenAtFileOk(cfg, w, dirFd, path, isDir);
        if e.Resolved? {
          ResolvedIsAbsolute(Lookup(w.tracker, dirFd), path);
        }
        OpenAtKeepsSafe(cfg, w, call, e.path);
      }
    case OpenDir(path, rc, alloc) =>
      if !Denied(cfg, path) {
        OpenFileOk(cfg, w, path, true);
        OpenKeepsSafe(cfg, w, OpenFile(path, Target(w, AT_FDCWD, path), true, Descriptor), rc, alloc);
      }
    case FOpen(_, _, _, _, _, _) =>
      StreamKeepsSafe(cfg, w, call);
    case FClose(fd) =>
      FCloseKeepsSafe(cfg, w, fd);
    case Close(fd) =>
      CloseKeepsSafe(cfg, w, fd, w.virtual - {fd});
    case CloseDir(fd, closed) =>
      if closed {
        CloseKeepsSafe(cfg, w, fd, w.virtual);
      }
    case Dup(oldFd, rc, alloc) =>
      if rc >= 0 {
        DupKeepsSafe(cfg, w, oldFd, rc, alloc, w.virtual);
      }
    case Dup2(oldFd, newFd, rc, alloc) =>
      if rc >= 0 && oldFd != newFd {
        DupKeepsSafe(cfg, w, oldFd, newFd, alloc, w.virtual - {newFd});
      }
    case Dup3(oldFd, newFd, rc, alloc) =>
      if rc >= 0 {
        DupKeepsSafe(cfg, w, oldFd, newFd, alloc, w.virtual - {newFd});
      }
    case Read(fd, count) =>
      ReadKeepsSafe(cfg, w, fd, count);
    case AskMemory(files) =>
      MemoryRefreshed(cfg, w, files);
    case Ioctl(fd, result, reply) =>
      IoctlKeepsSafe(cfg, w, result, reply);
    case ChangeDir(_) =>
  }

  lemma ResolvedIsAbsolute(tracked: Option<FdRecord>, path: string)
    requires EffectivePath(tracked, path).Resolved?
    ensures Absolute(EffectivePath(tracked, path).path)
  {
    var start := StartSegments(tracked.value).value;
    DescendExact(start, Tokens(path, '/'));
  }

  // ----- every run

  ghost predicate LegalRun(cfg: Config, w: World, calls: seq<Call>)
    decreases |calls|
  {
    calls == [] || (Legal(w, calls[0]) && LegalRun(cfg, Step(cfg, w, calls[0]), calls[1..]))
  }

  function RunAll(cfg: Config, w: World, calls: seq<Call>): World
    decreases |calls|
  {
    if calls == [] then w else RunAll(cfg, Step(cfg, w, calls[0]), calls[1..])
  }

  predicate AllAllocate(calls: seq<Call>) {
    forall i :: 0 <= i < |calls| ==> Allocates(calls[i])
  }

  /** Hidden is what a bus outside a valid allowed set names: its directory and its information
      file, wherever a spelling of them leads. */
  predicate Hidden(cfg: Config, place: Place) {
    && cfg.gpuVideo && cfg.filterReady && cfg.allowed.valid
    && IsBusLocation(place) && !AllowsBus(cfg.allowed, place[4])
  }

  /** The filter denies exactly the absolute paths with a normal form that lead somewhere
      hidden. */
  lemma DeniedIffHidden(cfg: Config, path: string)
    ensures Denied(cfg, path) <==> Absolute(path) && Normalize(path, PATH_MAX).Some? && Hidden(cfg, Location(path))
  {
    hide Normalize, Location, Decide;
    DecisionByLocation(cfg.allowed, path);
  }

  /** In full: the module is on and its filter ready, and the path is absolute, has a normal form
      and names the directory or the information file of a bus that no GPU of the valid set
      has. */
  lemma DeniedExact(cfg: Config, path: string)
    ensures Denied(cfg, path) <==>
            && cfg.gpuVideo && cfg.filterReady && cfg.allowed.valid
            && path != "" && path[0] == '/' && Normalize(path, 256).Some?
            && exists bus :: IsPlaceOfBus(Location(path), bus) &&
                 forall gpu :: gpu in cfg.allowed.gpus ==> gpu.busId != bus
  {
    hide Normalize, Location, Decide;
    DenyExact(cfg.allowed, path);
  }

  lemma MeminfoIsNotDenied(cfg: Config)
    ensures !Denied(cfg, MEMINFO) && !Hidden(cfg, Location(MEMINFO))
  {
    hide Denied, Location;
    LocationOfTwo("proc", "meminfo");
    assert "/" + "proc" + "/" + "meminfo" == MEMINFO;
    DeniedIffHidden(cfg, MEMINFO);
  }

  ghost predicate NothingHidden(cfg: Config, kernel: Kernel) {
    forall fd :: fd in kernel ==> !Hidden(cfg, kernel[fd].place)
  }

  /** A process starts with inherited descriptors of any files, none of them tracked. */
  ghost predicate Initial(w: World) {
    && w.tracker == map[] && w.virtual == map[] && w.memory == None && w.learned == []
    && forall fd :: fd in w.kernel ==> fd >= 0 && w.kernel[fd].via.Inherited?
  }

  lemma InitialIsSafe(cfg: Config, w: World)
    requires Initial(w)
    ensures Safe(cfg, w) && Exact(cfg, w)
  {
    hide Classify, Denied, Location;
    assert forall fd :: fd !in Paths(w.kernel);
    assert Expected(cfg, w.kernel) == map[];
  }

  lemma {:induction false} RunKeepsSafe(cfg: Config, w: World, calls: seq<Call>)
    requires Safe(cfg, w) && LegalRun(cfg, w, calls)
    ensures Safe(cfg, RunAll(cfg, w, calls))
    ensures Exact(cfg, w) && AllAllocate(calls) ==> Exact(cfg, RunAll(cfg, w, calls))
    decreases |calls|
  {
    hide Safe, Exact, Step, Legal, Allocates;
    if calls != [] {
      StepKeepsSafe(cfg, w, calls[0]);
      RunKeepsSafe(cfg, Step(cfg, w, calls[0]), calls[1..]);
    }
  }

  /** The main safety result: after every run, a tracked descriptor is open, was opened by a
      descriptor hook and holds the record of its effective path; such a path, if it is
      absolute, leads where the kernel found the file and is not denied; and virtual contents,
      behind descriptors and streams, show the one detected limit. If every allocation
      succeeds, tracked and classified are the same thing for the descriptor hooks, so
      descriptors of one file have one record. */
  lemma EveryRunIsSafe(cfg: Config, w: World, calls: seq<Call>)
    requires Initial(w) && LegalRun(cfg, w, calls)
    ensures var end := RunAll(cfg, w, calls);
            && (forall fd :: fd in end.tracker ==>
                  && fd in end.kernel && end.kernel[fd].via.Descriptor?
                  && Classify(end.kernel[fd].path) == Classification(true, end.tracker[fd]))
            && (forall fd :: fd in end.kernel && end.kernel[fd].via.Descriptor? && Absolute(end.kernel[fd].path) ==>
                  end.kernel[fd].place == Location(end.kernel[fd].path) && !Denied(cfg, end.kernel[fd].path))
            && (forall fd :: fd in end.virtual ==>
                  && fd in end.kernel && end.kernel[fd].path == MEMINFO
                  && MV.Finite(end.memory) && ShowsMemory(end.memory, end.virtual[fd].data))
            && (forall fd :: fd in end.kernel && end.kernel[fd].via.MemoryStream? ==>
                  MV.Finite(end.memory) && ShowsMemory(end.memory, end.kernel[fd].via.text))
            && (AllAllocate(calls) ==>
                  && (cfg.gpuVideo ==>
                        forall fd :: fd in end.kernel && end.kernel[fd].via.Descriptor? ==>
                          (Classify(end.kernel[fd].path).found ==> fd in end.tracker))
                  && forall a, b :: a in end.kernel && b in end.kernel && end.kernel[a] == end.kernel[b] ==>
                       Lookup(end.tracker, a) == Lookup(end.tracker, b))
  {
    hide Classify, Denied, Location, Step, Legal, LegalRun, RunAll, AllAllocate, ShowsMemory, MV.Finite;
    InitialIsSafe(cfg, w);
    RunKeepsSafe(cfg, w, calls);
    var end := RunAll(cfg, w, calls);
    forall fd | fd in end.tracker
      ensures fd in end.kernel && end.kernel[fd].via.Descriptor?
      ensures Classify(end.kernel[fd].path) == Classification(true, end.tracker[fd])
    {
      var c := Classify(end.kernel[fd].path);
      assert c == Classification(c.found, c.record);
    }
    assert forall fd :: fd in end.kernel ==> FileOk(cfg, end.memory, end.kernel[fd]);
  }
}
