/** Hidden files that are open all the same. The filter decides about spellings; this module
    says, for files, exactly which opens it lets through. */
module HiddenFiles {
  import opened Text
  import opened PathNormalizer
  import opened GpuPaths
  import opened RelativePaths
  import opened Hooks
  import opened Listing
  import CG = Cgroup
  import VF = VirtualFiles

  predicate IsOpen(call: Call) {
    call.Open? || call.OpenAt? || call.OpenDir? || call.FOpen?
  }

  /** The descriptor a name starts at, if it is relative. */
  function DirOf(call: Call): int
    requires IsOpen(call)
  {
    if call.OpenAt? then call.dirFd else AT_FDCWD
  }

  predicate TrackedDirectory(w: World, fd: int) {
    fd in w.tracker && (w.tracker[fd].kind == ProcGpusDir || w.tracker[fd].kind == ProcGpuBusDir)
  }

  /** The open the hooks do not judge: any fopen; and otherwise a relative name that does not
      start at a tracked GPU directory, or an absolute one without a normal form. */
  predicate Unjudged(w: World, call: Call)
    requires IsOpen(call)
  {
    if call.FOpen? then true
    else if Absolute(call.path) then Normalize(call.path, PATH_MAX) == None
    else !(call.OpenAt? && TrackedDirectory(w, call.dirFd))
  }

  /** The call opens a hidden file, with the kernel's consent, and the hooks do not judge it. */
  predicate LetsThrough(cfg: Config, w: World, call: Call) {
    IsOpen(call) && call.rc >= 0 && Hidden(cfg, Target(w, DirOf(call), call.path)) && Unjudged(w, call)
  }

  // ----- one call

  /** The effective path of an open, unless it is refused. */
  function Effective(w: World, call: Call): Effective
    requires IsOpen(call)
  {
    if call.OpenAt? then EffectivePath(Lookup(w.tracker, call.dirFd), call.path) else Passthrough(call.path)
  }

  predicate Admitted(cfg: Config, w: World, call: Call)
    requires IsOpen(call)
  {
    var e := Effective(w, call);
    call.FOpen? || (!e.Refused? && !Denied(cfg, e.path))
  }

  /** The file an admitted call opens. */
  function OpenedFile(cfg: Config, w: World, call: Call): OpenFile
    requires IsOpen(call) && Admitted(cfg, w, call)
  {
    if call.FOpen? then StreamFile(cfg, w, call)
    else
      OpenFile(Effective(w, call).path, Target(w, DirOf(call), call.path), call.OpenDir? || call.isDir, Descriptor)
  }

  /** The kernel table after an open: the file, wherever it lies, if the call is admitted. */
  lemma OpenedKernel(cfg: Config, w: World, call: Call)
    requires IsOpen(call)
    ensures Step(cfg, w, call).kernel ==
            if Admitted(cfg, w, call) && call.rc >= 0
            then w.kernel[call.rc := OpenedFile(cfg, w, call)] else w.kernel
  {
    hide Denied, EffectivePath, Target, Track, Attach, Built;
    if call.Open? && !Denied(cfg, call.path) {
      var file := OpenFile(call.path, Target(w, AT_FDCWD, call.path), call.isDir, Descriptor);
      var next := OpenedAndTracked(cfg, w, call.rc, file, call.alloc);
      AttachKeepsTables(cfg, next, call.path, call.readable, call.files, call.rc, call.alloc);
    } else if call.OpenAt? {
      var e := EffectivePath(Lookup(w.tracker, call.dirFd), call.path);
      if !e.Refused? {
        OpenedAtTables(cfg, w, call, e.path);
      }
    }
  }

  /** The file lies where the name leads, or it is one in memory, where /proc/meminfo should be. */
  lemma OpenedPlace(cfg: Config, w: World, call: Call)
    requires IsOpen(call) && Admitted(cfg, w, call)
    ensures var place := Target(w, DirOf(call), call.path);
            OpenedFile(cfg, w, call).place == place ||
            (!Hidden(cfg, place) && !Hidden(cfg, OpenedFile(cfg, w, call).place))
    ensures Hidden(cfg, Target(w, DirOf(call), call.path)) && call.FOpen? ==>
              OpenedFile(cfg, w, call).path == call.path
  {
    hide Target, Built, Denied, EffectivePath, Location;
    if call.FOpen? && VirtualizesStream(cfg, call) {
      TargetOfAbsolute(w, AT_FDCWD, call.path);
      MeminfoIsNotDenied(cfg);
    }
  }

  /** An open that finds a hidden file is admitted exactly when the hooks do not judge it. */
  lemma AdmittedIffUnjudged(cfg: Config, w: World, call: Call)
    requires Safe(cfg, w) && IsOpen(call) && Hidden(cfg, Target(w, DirOf(call), call.path))
    ensures Admitted(cfg, w, call) <==> Unjudged(w, call)
  {
    var path := call.path;
    if call.FOpen? {
    } else if Absolute(path) {
      TargetOfAbsolute(w, DirOf(call), path);
      hide Denied, Hidden, Normalize, Location, Target, Classify;
      DeniedIffHidden(cfg, path);
    } else if !Unjudged(w, call) {
      BelowTrackedIsJudged(cfg, w, call);
    } else {
      hide Hidden, Target, Classify;
      RelativeIsNotDenied(cfg, path);
    }
  }

  lemma RelativeIsNotDenied(cfg: Config, path: string)
    requires !Absolute(path)
    ensures !Denied(cfg, path)
  {
  }

  lemma BelowTrackedIsJudged(cfg: Config, w: World, call: Call)
    requires Safe(cfg, w) && call.OpenAt? && !Absolute(call.path) && TrackedDirectory(w, call.dirFd)
    requires Hidden(cfg, Target(w, call.dirFd, call.path))
    ensures !Admitted(cfg, w, call)
  {
    hide Denied, Hidden, Normalize, Location, Target, Classify, EffectivePath;
    var e := EffectivePath(Lookup(w.tracker, call.dirFd), call.path);
    OpenatFollowsDirectory(cfg, w, call.dirFd, call.path);
    if e.Resolved? {
      assert call.dirFd in w.kernel && call.dirFd >= 0;
      ResolvedLeadsToTarget(cfg, w, call.dirFd, call.path);
      var joined := w.tracker[call.dirFd].path + "/" + call.path;
      NormalizeIdempotent(joined, PATH_MAX, e.path);
      DeniedIffHidden(cfg, e.path);
    }
  }

  /** What a legal open of a hidden file does: the descriptor is there afterwards exactly when
      the hooks did not judge the call. */
  lemma HiddenOpenIff(cfg: Config, w: World, call: Call)
    requires Safe(cfg, w) && Legal(w, call) && IsOpen(call) && call.rc >= 0
    requires Hidden(cfg, Target(w, DirOf(call), call.path))
    ensures call.rc in Step(cfg, w, call).kernel <==> Unjudged(w, call)
  {
    AdmittedIffUnjudged(cfg, w, call);
    OpenedKernel(cfg, w, call);
    hide Step, Admitted, Unjudged, Hidden, Target, Effective;
  }

  /** One open from a world in which nothing hidden is open. */
  lemma OpenHidesIff(cfg: Config, w: World, call: Call)
    requires Safe(cfg, w) && Legal(w, call) && NothingHidden(cfg, w.kernel) && IsOpen(call)
    ensures NothingHidden(cfg, Step(cfg, w, call).kernel) <==> !LetsThrough(cfg, w, call)
  {
    hide Safe, Step, Admitted, Unjudged, Hidden, Target, Effective, OpenedFile;
    OpenedKernel(cfg, w, call);
    if Hidden(cfg, Target(w, DirOf(call), call.path)) {
      AdmittedIffUnjudged(cfg, w, call);
    }
    if Admitted(cfg, w, call) && call.rc >= 0 {
      OpenedPlace(cfg, w, call);
      assert Step(cfg, w, call).kernel[call.rc] == OpenedFile(cfg, w, call);
    }
  }

  /** One step from a world in which nothing hidden is open. */
  lemma StepHidesIff(cfg: Config, w: World, call: Call)
    requires Safe(cfg, w) && Legal(w, call) && NothingHidden(cfg, w.kernel)
    ensures NothingHidden(cfg, Step(cfg, w, call).kernel) <==> !LetsThrough(cfg, w, call)
  {
    hide Safe, Step, Hidden, Unjudged, Target, Legal;
    if IsOpen(call) {
      OpenHidesIff(cfg, w, call);
    } else {
      OtherCallsOpenNothing(cfg, w, call);
    }
  }

  /** Calls that open nothing only remove descriptors, or put a file that is open already
      behind another one. */
  lemma OtherCallsOpenNothing(cfg: Config, w: World, call: Call)
    requires !IsOpen(call)
    ensures forall fd :: fd in Step(cfg, w, call).kernel ==>
              exists g :: g in w.kernel && w.kernel[g] == Step(cfg, w, call).kernel[fd]
  {
    hide CopiedRecord, VF.Apply;
    var next := Step(cfg, w, call).kernel;
    forall fd | fd in next
      ensures exists g :: g in w.kernel && w.kernel[g] == next[fd]
    {
      if fd in w.kernel && w.kernel[fd] == next[fd] {
      } else {
        assert (call.Dup? || call.Dup2? || call.Dup3?) && call.oldFd in w.kernel;
        assert w.kernel[call.oldFd] == next[fd];
      }
    }
  }

  // ----- every run

  /** Nothing hidden is open before the run, at its end, or in between. */
  ghost predicate StaysHidden(cfg: Config, w: World, calls: seq<Call>)
    decreases |calls|
  {
    NothingHidden(cfg, w.kernel) && (calls == [] || StaysHidden(cfg, Step(cfg, w, calls[0]), calls[1..]))
  }

  /** No call of the run is let through. */
  ghost predicate AllJudged(cfg: Config, w: World, calls: seq<Call>)
    decreases |calls|
  {
    calls == [] || (!LetsThrough(cfg, w, calls[0]) && AllJudged(cfg, Step(cfg, w, calls[0]), calls[1..]))
  }

  lemma {:induction false} StaysHiddenFrom(cfg: Config, w: World, calls: seq<Call>)
    requires Safe(cfg, w) && LegalRun(cfg, w, calls) && NothingHidden(cfg, w.kernel)
    ensures StaysHidden(cfg, w, calls) <==> AllJudged(cfg, w, calls)
    decreases |calls|
  {
    hide Safe, Step, Legal, NothingHidden, LetsThrough;
    if calls != [] {
      var next := Step(cfg, w, calls[0]);
      StepKeepsSafe(cfg, w, calls[0]);
      StepHidesIff(cfg, w, calls[0]);
      if NothingHidden(cfg, next.kernel) {
        StaysHiddenFrom(cfg, next, calls[1..]);
      }
    }
  }

  /** The exact condition over whole runs: unless one is inherited, a hidden file is open at some
      time iff some call of the run opens one through fopen, by a relative name that does not
      start at a tracked GPU directory, or by an absolute name without a normal form. */
  lemma HiddenFilesStayClosedIff(cfg: Config, w: World, calls: seq<Call>)
    requires Initial(w) && NothingHidden(cfg, w.kernel) && LegalRun(cfg, w, calls)
    ensures StaysHidden(cfg, w, calls) <==> AllJudged(cfg, w, calls)
  {
    hide Safe, LegalRun, StaysHidden, AllJudged, NothingHidden;
    InitialIsSafe(cfg, w);
    StaysHiddenFrom(cfg, w, calls);
  }

  lemma {:induction false} RunSnoc(cfg: Config, w: World, calls: seq<Call>, call: Call)
    ensures RunAll(cfg, w, calls + [call]) == Step(cfg, RunAll(cfg, w, calls), call)
    ensures LegalRun(cfg, w, calls + [call]) ==> LegalRun(cfg, w, calls) && Legal(RunAll(cfg, w, calls), call)
    decreases |calls|
  {
    hide Step, Legal;
    if calls == [] {
      assert calls + [call] == [call] && [call][1..] == [];
    } else {
      assert (calls + [call])[1..] == calls[1..] + [call];
      RunSnoc(cfg, Step(cfg, w, calls[0]), calls[1..], call);
    }
  }

  /** Call `i` of the run was let through, and opened `file`. */
  ghost predicate OpenedBy(cfg: Config, w: World, calls: seq<Call>, i: nat, file: OpenFile) {
    i < |calls| &&
    var at, call := RunAll(cfg, w, calls[..i]), calls[i];
    LetsThrough(cfg, at, call) && file.path == call.path && file.place == Target(at, DirOf(call), call.path)
  }

  /** Where a hidden file that is open comes from: some call of the run opened it and was not
      judged, unless it was inherited; duplicates of it count as the same file. */
  lemma {:induction false} HiddenFileHasOrigin(cfg: Config, w: World, calls: seq<Call>, fd: int)
    requires Initial(w) && NothingHidden(cfg, w.kernel) && LegalRun(cfg, w, calls)
    requires fd in RunAll(cfg, w, calls).kernel && Hidden(cfg, RunAll(cfg, w, calls).kernel[fd].place)
    ensures exists i: nat :: OpenedBy(cfg, w, calls, i, RunAll(cfg, w, calls).kernel[fd])
    decreases |calls|
  {
    hide Safe, Step, Legal, Hidden, LetsThrough, Target, LegalRun, Unjudged;
    if calls == [] {
      assert false;
    } else {
      var init, last := calls[..|calls|-1], calls[|calls|-1];
      assert calls == init + [last];
      RunSnoc(cfg, w, init, last);
      InitialIsSafe(cfg, w);
      RunKeepsSafe(cfg, w, init);
      var at := RunAll(cfg, w, init);
      var file := Step(cfg, at, last).kernel[fd];
      var former := FormerDescriptor(cfg, at, last, fd);
      if former.Some? {
        HiddenFileHasOrigin(cfg, w, init, former.value);
        var i: nat :| OpenedBy(cfg, w, init, i, file);
        assert init[..i] == calls[..i] && init[i] == calls[i];
        assert OpenedBy(cfg, w, calls, i, file);
      } else {
        assert calls[..|calls|-1] == init;
        assert OpenedBy(cfg, w, calls, |calls|-1, file);
      }
    }
  }

  /** Either the file of `fd` was open before the call, or it is hidden only if the call was
      let through. */
  lemma FormerDescriptor(cfg: Config, w: World, call: Call, fd: int) returns (former: Option<int>)
    requires Safe(cfg, w) && Legal(w, call)
    requires fd in Step(cfg, w, call).kernel && Hidden(cfg, Step(cfg, w, call).kernel[fd].place)
    ensures former.Some? ==> former.value in w.kernel && w.kernel[former.value] == Step(cfg, w, call).kernel[fd]
    ensures former == None ==>
              && LetsThrough(cfg, w, call)
              && Step(cfg, w, call).kernel[fd].path == call.path
              && Step(cfg, w, call).kernel[fd].place == Target(w, DirOf(call), call.path)
  {
    var next := Step(cfg, w, call).kernel;
    if !IsOpen(call) {
      OtherCallsOpenNothing(cfg, w, call);
      hide Step, Hidden, Target;
      var o :| o in w.kernel && w.kernel[o] == next[fd];
      former := Some(o);
    } else if fd in w.kernel && w.kernel[fd] == next[fd] {
      former := Some(fd);
    } else {
      OpenedKernel(cfg, w, call);
      hide Step, Hidden, Target, Denied, Classify, Built;
      assert Admitted(cfg, w, call) && next[fd] == OpenedFile(cfg, w, call);
      OpenedPlace(cfg, w, call);
      AdmittedIffUnjudged(cfg, w, call);
      UnjudgedIsUnchanged(w, call);
      former := None;
    }
  }

  lemma UnjudgedIsUnchanged(w: World, call: Call)
    requires IsOpen(call) && Unjudged(w, call)
    ensures Effective(w, call) == Passthrough(call.path)
  {
    hide Normalize, Resolve;
  }

  // ----- the ways through

  /** fopen opens whatever the other hooks would deny. */
  lemma StreamsAreNotJudged(cfg: Config, w: World, call: Call)
    requires Safe(cfg, w) && call.FOpen? && Legal(w, call) && call.rc >= 0 && Denied(cfg, call.path)
    ensures var next := Step(cfg, w, call).kernel;
            LetsThrough(cfg, w, call) && call.rc in next && Hidden(cfg, next[call.rc].place)
  {
    hide Denied, Hidden, Location, Target, Built, Step;
    DeniedIffHidden(cfg, call.path);
    TargetOfAbsolute(w, AT_FDCWD, call.path);
    OpenedKernel(cfg, w, call);
    OpenedPlace(cfg, w, call);
  }

  /** For example the information file of any hidden bus, by its plain name. */
  lemma StreamLetsThrough(cfg: Config, w: World, bus: string, files: CG.FileSystem, rc: int)
    requires Safe(cfg, w) && cfg.gpuVideo && cfg.filterReady && cfg.allowed.valid
    requires Plain(bus) && |bus| < BUS_ID_MAX && !AllowsBus(cfg.allowed, bus)
    requires rc >= 0 && rc !in w.kernel
    ensures var path := BASE + "/" + bus + "/" + INFORMATION;
            var next := Step(cfg, w, FOpen(path, false, true, true, files, rc)).kernel;
            Denied(cfg, path) && rc in next && Hidden(cfg, next[rc].place)
  {
    hide Safe, Step, Hidden, Decide;
    var path := BASE + "/" + bus + "/" + INFORMATION;
    ListedNameIsReadable(FdRecord(ProcGpusDir, -1, BASE, ""), cfg.allowed, bus);
    assert path[0] == BASE[0];
    StreamsAreNotJudged(cfg, w, FOpen(path, false, true, true, files, rc));
  }

  lemma SafeDescriptors(cfg: Config, w: World)
    requires Safe(cfg, w)
    ensures forall fd :: fd in w.kernel ==> fd >= 0
    ensures forall fd :: fd in w.tracker ==> fd in w.kernel
  {
    hide Classify, FileOk, VirtualSound;
  }

  lemma PassesUntracked(w: World, dirFd: int, path: string)
    requires dirFd !in w.tracker
    ensures EffectivePath(Lookup(w.tracker, dirFd), path) == Passthrough(path)
  {
  }

  lemma TokensOfThree(a: string, b: string, c: string)
    requires AllSegments([a, b, c])
    ensures Tokens(a + "/" + b + "/" + c, '/') == [a, b, c]
  {
    hide Tokens;
    assert [a, b, c][0] == a && [a, b, c][1] == b && [a, b, c][2] == c;
    TokensOfJoined(a + "/" + b, c, '/');
    TokensOfJoined(a, b, '/');
    TokensOfWord(a, '/');
    TokensOfWord(b, '/');
    TokensOfWord(c, '/');
  }

  /** The name of an information file, seen from the parent of the GPU directory. */
  function InfoName(bus: string): string {
    BASE_SEGMENTS[3] + "/" + bus + "/" + INFORMATION
  }

  /** The information file of any hidden bus can be opened by its name below an open descriptor
      of the parent of the GPU directory. */
  lemma ParentLetsThrough(cfg: Config, w: World, dirFd: int, bus: string, files: CG.FileSystem, rc: int, alloc: bool)
    requires Safe(cfg, w) && dirFd in w.kernel && w.kernel[dirFd].place == BASE_SEGMENTS[..3] && dirFd !in w.tracker
    requires cfg.gpuVideo && cfg.filterReady && cfg.allowed.valid
    requires Plain(bus) && |bus| < BUS_ID_MAX && !AllowsBus(cfg.allowed, bus)
    requires rc >= 0 && rc !in w.kernel
    ensures var call := OpenAt(dirFd, InfoName(bus), false, true, files, rc, alloc);
            Legal(w, call) && LetsThrough(cfg, w, call) && rc in Step(cfg, w, call).kernel
  {
    var call := OpenAt(dirFd, InfoName(bus), false, true, files, rc, alloc);
    var segs := [BASE_SEGMENTS[3], bus, INFORMATION];
    TokensOfThree(segs[0], bus, INFORMATION);
    assert InfoName(bus)[0] == 'g' && dirFd >= 0;
    WalkOfPlain(BASE_SEGMENTS[..3], segs);
    var place := BASE_SEGMENTS[..3] + segs;
    assert place[..4] == BASE_SEGMENTS && place[4] == bus && place[5] == INFORMATION;
    hide Tokens, Walk, Step, Safe, InfoName;
    HiddenOpenIff(cfg, w, call);
  }

  /** And the GPU directory itself, opened that way, is listed unfiltered: its descriptor is not
      tracked. */
  lemma ParentListsUnfiltered(cfg: Config, w: World, dirFd: int, files: CG.FileSystem, rc: int, alloc: bool)
    requires Safe(cfg, w) && dirFd in w.kernel && w.kernel[dirFd].place == BASE_SEGMENTS[..3] && dirFd !in w.tracker
    requires rc >= 0 && rc !in w.kernel
    ensures var call := OpenAt(dirFd, BASE_SEGMENTS[3], true, true, files, rc, alloc);
            && Legal(w, call)
            && var next := Step(cfg, w, call);
               rc in next.kernel && next.kernel[rc].place == BASE_SEGMENTS && rc !in next.tracker
  {
    hide Tokens, Walk, Track, Denied, EffectivePath, Attach, OpenedAt, Safe;
    var name := BASE_SEGMENTS[3];
    var call := OpenAt(dirFd, name, true, true, files, rc, alloc);
    SafeDescriptors(cfg, w);
    TokensOfWord(name, '/');
    WalkOfPlain(BASE_SEGMENTS[..3], [name]);
    assert BASE_SEGMENTS[..3] + [name] == BASE_SEGMENTS;
    PassesUntracked(w, dirFd, name);
    RelativeIsNotDenied(cfg, name);
    OpenedAtTables(cfg, w, call, name);
  }

  /** A path that leads to a bus is short, so all that can keep it from having a normal form is
      a detour deeper than the 64 segment slots. */
  lemma BusPathFailsIffDeep(path: string)
    requires Absolute(path) && IsBusLocation(Location(path)) && AllPlain(Location(path))
    ensures Normalize(path, PATH_MAX) == None <==> DepthOverflows([], Tokens(path, '/'))
  {
    hide Normalize, Tokens, Survivors, DepthOverflows, Join;
    NormalizeFailsIff(path, PATH_MAX);
    var loc := Location(path);
    RenderFromBase(loc);
    if |loc| == 5 {
      assert loc[4..] == [loc[4]];
      JoinOfWord(loc[4]);
    } else {
      assert loc[4..] == [loc[4]] + [INFORMATION];
      JoinCons(loc[4], [INFORMATION]);
      JoinOfWord(INFORMATION);
    }
  }

  /** A detour: down `n` directories and up again. */
  function Detour(n: nat): seq<string> {
    seq(n, _ => "a") + seq(n, _ => "..")
  }

  lemma {:induction false} WalkUp(stack: seq<string>, n: nat)
    requires n <= |stack|
    ensures Walk(stack, seq(n, _ => "..")) == stack[..|stack| - n]
    decreases n
  {
    if n > 0 {
      assert seq(n, _ => "..")[1..] == seq(n - 1, _ => "..");
      WalkUp(stack[..|stack|-1], n - 1);
    }
  }

  lemma WalkDetour(n: nat, rest: seq<string>)
    ensures Walk([], Detour(n) + rest) == Walk([], rest)
    ensures Walk([], (Detour(n) + rest)[..n]) == seq(n, _ => "a")
  {
    var down, up := seq(n, _ => "a"), seq(n, _ => "..");
    WalkOfPlain([], down);
    assert [] + down == down && (Detour(n) + rest)[..n] == down;
    WalkConcat([], down, up);
    WalkUp(down, n);
    WalkConcat([], down + up, rest);
  }

  /** The absolute spelling of a hidden bus directory that is opened: a detour through 65
      directories in front of its path. */
  lemma DetourLetsThrough(cfg: Config, w: World, bus: string, rc: int, alloc: bool)
    requires Safe(cfg, w) && cfg.gpuVideo && cfg.filterReady && cfg.allowed.valid
    requires Plain(bus) && |bus| < BUS_ID_MAX && !AllowsBus(cfg.allowed, bus)
    requires rc >= 0 && rc !in w.kernel
    ensures var path := Join(Detour(MAX_SEGMENTS + 1) + (BASE_SEGMENTS + [bus]));
            && Absolute(path) && path != MEMINFO && Location(path) == BASE_SEGMENTS + [bus]
            && rc in Step(cfg, w, OpenDir(path, rc, alloc)).kernel
  {
    var loc := BASE_SEGMENTS + [bus];
    DetourLocation(loc);
    hide Tokens, Walk, Step, Safe, Join, Detour, Normalize;
    var path := Join(Detour(MAX_SEGMENTS + 1) + loc);
    assert loc[..4] == BASE_SEGMENTS && loc[4] == bus;
    BusPathFailsIffDeep(path);
    TargetOfAbsolute(w, AT_FDCWD, path);
    HiddenOpenIff(cfg, w, OpenDir(path, rc, alloc));
  }

  lemma DetourLocation(loc: seq<string>)
    requires AllPlain(loc) && loc != []
    ensures var path := Join(Detour(MAX_SEGMENTS + 1) + loc);
            && Absolute(path) && path != MEMINFO && Location(path) == loc
            && DepthOverflows([], Tokens(path, '/'))
  {
    var n := MAX_SEGMENTS + 1;
    var segs := Detour(n) + loc;
    TokensOfJoin(segs);
    WalkDetour(n, loc);
    WalkOfPlain([], loc);
    assert [] + loc == loc;
    WalkIsSurvivors(segs);
    assert |Walk([], segs[..n])| > MAX_SEGMENTS;
    assert Join(segs)[1] == segs[0][0] == 'a';
  }
}
