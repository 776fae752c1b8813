/** The hooks that consult the tracker on descriptors: which listings and which RM replies are
    filtered after a run, and what the filtered replies show. */
module HookFilters {
  import opened Text
  import opened PathNormalizer
  import opened GpuPaths
  import opened Hooks
  import L = Listing
  import IO = IoctlFilter

  /** getdents64 and readdir filter what they return. */
  predicate FiltersListing(cfg: Config, w: World, fd: int) {
    cfg.gpuVideo && cfg.filterReady && fd in w.tracker && w.tracker[fd].kind == ProcGpusDir
  }

  lemma GpuDirectoryByPlace(path: string)
    ensures Normalize(path, PATH_MAX) == Some(BASE) <==>
            Absolute(path) && Normalize(path, PATH_MAX).Some? && Location(path) == BASE_SEGMENTS
  {
    hide Location, Render, BASE_SEGMENTS;
    if Normalize(path, PATH_MAX).Some? {
      NormalizedIsAbsolute(path, Normalize(path, PATH_MAX).value);
      LocationOfNormalized(path);
      RenderBelowBase(Location(path));
    }
  }

  lemma ControlDeviceByPlace()
    ensures Absolute("/dev/nvidiactl") && Location("/dev/nvidiactl") == ["dev", "nvidiactl"]
  {
    DeviceLocation("nvidiactl");
    assert "/dev/" + "nvidiactl" == "/dev/nvidiactl";
  }

  /** With allocation succeeding, and whatever was duplicated, closed and reused: an open
      descriptor of the GPU directory is filtered iff a descriptor hook opened the directory by
      an absolute spelling with a normal form, or below itself (then the effective path is one);
      and one of the control device iff a descriptor hook opened it by its one spelling. Nothing
      else is filtered: no stream, no inherited descriptor. */
  lemma FiltersFollowTheKernel(cfg: Config, w: World, calls: seq<Call>, fd: int)
    requires Initial(w) && LegalRun(cfg, w, calls) && AllAllocate(calls)
    ensures var end := RunAll(cfg, w, calls);
            && (FiltersListing(cfg, end, fd) <==>
                  && cfg.gpuVideo && cfg.filterReady && fd in end.kernel && end.kernel[fd].via.Descriptor?
                  && end.kernel[fd].place == BASE_SEGMENTS
                  && Absolute(end.kernel[fd].path) && Normalize(end.kernel[fd].path, PATH_MAX).Some?)
            && (FiltersIoctl(cfg, end, fd) <==>
                  && cfg.gpuVideo && cfg.gpuIoctl && fd in end.kernel && end.kernel[fd].via.Descriptor?
                  && end.kernel[fd].place == ["dev", "nvidiactl"] && end.kernel[fd].path == "/dev/nvidiactl")
  {
    hide Classify, Denied, Step, Legal, LegalRun, RunAll, AllAllocate, Normalize, Location, ShowsMemory,
         BASE_SEGMENTS;
    InitialIsSafe(cfg, w);
    RunKeepsSafe(cfg, w, calls);
    var end := RunAll(cfg, w, calls);
    if fd in end.kernel {
      assert FileOk(cfg, end.memory, end.kernel[fd]);
      KindsByPath(end.kernel[fd].path);
      GpuDirectoryByPlace(end.kernel[fd].path);
      ControlDeviceByPlace();
    }
  }

  /** readdir hands the entry on: always outside the GPU directory or without a filter in force,
      and there if it is a dot entry or an allowed bus. */
  predicate Lists(cfg: Config, w: World, fd: int, name: string) {
    cfg.gpuVideo && cfg.filterReady && fd in w.tracker && w.tracker[fd].kind == ProcGpusDir ==>
      || name == "." || name == ".."
      || (cfg.allowed.valid && name != "" && exists gpu | gpu in cfg.allowed.gpus :: gpu.busId == name)
  }

  lemma ListsWhatReaddirKeeps(cfg: Config, w: World, fd: int, name: string)
    ensures L.ReaddirKeeps(cfg.gpuVideo && cfg.filterReady, Lookup(w.tracker, fd), cfg.allowed, name) <==>
            Lists(cfg, w, fd, name)
    ensures !FiltersListing(cfg, w, fd) ==> Lists(cfg, w, fd, name)
  {
    var gpus := cfg.allowed.gpus;
    if gpu :| gpu in gpus && gpu.busId == name {
      var i :| 0 <= i < |gpus| && gpus[i] == gpu;
    }
  }

  /** What a caller of readdir gets in all. */
  function Listing(cfg: Config, w: World, fd: int, entries: seq<string>): seq<string> {
    L.Shown(cfg.gpuVideo && cfg.filterReady, Lookup(w.tracker, fd), cfg.allowed, entries)
  }

  /** A listing is unchanged iff the descriptor's listings are not filtered, or nothing in it is
      hidden. */
  lemma ListingUnchangedIff(cfg: Config, w: World, fd: int, entries: seq<string>)
    ensures Listing(cfg, w, fd, entries) == entries <==>
            !FiltersListing(cfg, w, fd) || forall i :: 0 <= i < |entries| ==> Lists(cfg, w, fd, entries[i])
  {
    hide Lists, L.Shown, L.ReaddirKeeps, Selects;
    var shown := Listing(cfg, w, fd, entries);
    var at := L.ShownAt(cfg.gpuVideo && cfg.filterReady, Lookup(w.tracker, fd), cfg.allowed, entries);
    forall name: string
      ensures L.ReaddirKeeps(cfg.gpuVideo && cfg.filterReady, Lookup(w.tracker, fd), cfg.allowed, name) <==>
              Lists(cfg, w, fd, name)
    {
      ListsWhatReaddirKeeps(cfg, w, fd, name);
    }
    if !FiltersListing(cfg, w, fd) {
      L.OtherwiseAllShown(cfg.gpuVideo && cfg.filterReady, Lookup(w.tracker, fd), cfg.allowed, entries);
    } else {
      AllSelectedIff(entries, at, shown);
    }
  }


  /** After every run, allocation failures included, a directory that was not opened by a
      descriptor hook at the place of the GPU directory is listed whole. */
  lemma OtherDirectoriesAreWhole(cfg: Config, w: World, calls: seq<Call>, end: World, fd: int, entries: seq<string>)
    requires Initial(w) && LegalRun(cfg, w, calls) && end == RunAll(cfg, w, calls)
    requires fd in end.kernel && end.kernel[fd].via.Descriptor? ==>
               end.kernel[fd].place != ["proc", "driver", "nvidia", "gpus"]
    ensures Listing(cfg, end, fd, entries) == entries
  {
    hide Classify, Denied, Step, LegalRun, RunAll, AllAllocate, Normalize, Location, ShowsMemory, Lists, L.Shown;
    EveryRunIsSafe(cfg, w, calls);
    if FiltersListing(cfg, end, fd) {
      var path := end.kernel[fd].path;
      assert Classify(path) == Classification(true, end.tracker[fd]);
      KindsByPath(path);
      GpuDirectoryByPlace(path);
    }
    ListingUnchangedIff(cfg, end, fd, entries);
  }

  // ----- RM replies along a run

  /** What the learning filter hears: the replies of ioctls on tracked control descriptors. */
  function Heard(cfg: Config, w: World, calls: seq<Call>): seq<IO.Event>
    decreases |calls|
  {
    if calls == [] then []
    else
      (if calls[0].Ioctl? && FiltersIoctl(cfg, w, calls[0].fd)
       then [IO.Event(calls[0].result, calls[0].reply)] else [])
      + Heard(cfg, Step(cfg, w, calls[0]), calls[1..])
  }

  lemma StepLearns(cfg: Config, w: World, call: Call)
    ensures Step(cfg, w, call).learned ==
            if call.Ioctl? && FiltersIoctl(cfg, w, call.fd)
            then IO.Learned(IoctlConfig(cfg), w.learned, call.result, call.reply) else w.learned
  {
    hide Track, CopiedRecord, Built, IO.Learned, Target;
  }

  lemma {:induction false} RunLearns(cfg: Config, w: World, calls: seq<Call>)
    ensures RunAll(cfg, w, calls).learned == IO.LearnAll(IoctlConfig(cfg), w.learned, Heard(cfg, w, calls))
    decreases |calls|
  {
    hide Step, FiltersIoctl, IO.Learned, IoctlConfig;
    if calls != [] {
      var call, next := calls[0], Step(cfg, w, calls[0]);
      StepLearns(cfg, w, call);
      RunLearns(cfg, next, calls[1..]);
      var rest := Heard(cfg, next, calls[1..]);
      if call.Ioctl? && FiltersIoctl(cfg, w, call.fd) {
        var heard := Heard(cfg, w, calls);
        assert heard[0] == IO.Event(call.result, call.reply) && heard[1..] == rest;
      } else {
        assert Heard(cfg, w, calls) == rest;
      }
    }
  }

  /** The reply ioctl hands on. */
  function HandedOn(cfg: Config, w: World, fd: int, result: int, reply: IO.Reply): IO.Reply
    requires IO.Sized(reply)
  {
    if FiltersIoctl(cfg, w, fd) then IO.Rewritten(IoctlConfig(cfg), w.learned, result, reply) else reply
  }

  /** When replies are filtered, in terms of the switches and the topology: ioctls on a tracked
      descriptor of the control device, with both switches on, the filter ready and its set
      valid. All other replies are handed on as they are, and teach nothing. */
  lemma RepliesByConfig(cfg: Config, w: World, fd: int, result: int, reply: IO.Reply)
    requires IO.Sized(reply)
    ensures var inForce := cfg.gpuVideo && cfg.gpuIoctl && cfg.filterReady && cfg.allowed.valid
                           && fd in w.tracker && w.tracker[fd].kind == NvidiaCtl;
            && (if inForce && IO.CanFilter(w.learned, result, reply)
                then IO.IsFiltered(cfg.allowed, w.learned, reply, HandedOn(cfg, w, fd, result, reply))
                else HandedOn(cfg, w, fd, result, reply) == reply)
            && (!inForce || result != 0 || !reply.CardInfo? ==>
                  Step(cfg, w, Ioctl(fd, result, reply)).learned == w.learned)
  {
    hide IO.Rewritten, IO.IsFiltered, IO.CanFilter, IO.Learn;
    IO.ReplyExact(IoctlConfig(cfg), w.learned, result, reply);
  }

  /** What a successful card-info reply teaches then. */
  lemma LearnedByConfig(cfg: Config, w: World, fd: int, cards: seq<IO.Card>, id: IO.U32)
    requires IO.IdsOk(w.learned) && |cards| == 32
    requires cfg.gpuVideo && cfg.gpuIoctl && cfg.filterReady && cfg.allowed.valid
    requires fd in w.tracker && w.tracker[fd].kind == NvidiaCtl
    ensures var learned := Step(cfg, w, Ioctl(fd, 0, IO.CardInfo(cards))).learned;
            var taught := exists card, gpu ::
              && card in cards && card.valid && card.gpuId == id
              && gpu in cfg.allowed.gpus && gpu.present && gpu.deviceMinor == card.minor;
            && w.learned <= learned && |learned| <= 32
            && (id in learned ==> id in w.learned || taught)
            && (taught && id != 0xffff_ffff ==> id in learned || |learned| == 32)
  {
    hide IO.Learned, IO.IdsOk;
    IO.LearnedExact(IoctlConfig(cfg), w.learned, 0, IO.CardInfo(cards), id);
  }

  /** After every run: on a descriptor of the control device a filterable reply shows only ids
      that card-info replies, heard earlier in the run on such descriptors, have taught for
      allowed minors; before anything is taught, and on all other descriptors, replies are
      handed on untouched. */
  lemma RunsShowOnlyTaught(cfg: Config, w: World, calls: seq<Call>, fd: int, result: int, reply: IO.Reply, id: IO.U32)
    requires Initial(w) && LegalRun(cfg, w, calls) && IO.Sized(reply)
    requires IO.Filterable(IoctlConfig(cfg), result, reply)
    ensures var end, heard := RunAll(cfg, w, calls), Heard(cfg, w, calls);
            var shown := HandedOn(cfg, end, fd, result, reply);
            if FiltersIoctl(cfg, end, fd) && end.learned != []
            then IO.Shows(shown, id) ==> id in end.learned && IO.TaughtIn(IoctlConfig(cfg), heard, id)
            else shown == reply
  {
    hide Step, LegalRun, FiltersIoctl, IoctlConfig, IO.LearnAll, IO.Rewritten, IO.Shows, IO.TaughtIn, IO.Filterable;
    RunLearns(cfg, w, calls);
    IO.RepliesShowOnlyTaught(IoctlConfig(cfg), Heard(cfg, w, calls), result, reply, id);
  }

  /** Opens, duplicates and closes in between do not make the filter forget: ids learned before
      the rest of a run are still learned, in their places, at its end. */
  lemma RunsForgetNothing(cfg: Config, w: World, calls: seq<Call>)
    requires Safe(cfg, w) && LegalRun(cfg, w, calls)
    ensures w.learned <= RunAll(cfg, w, calls).learned && IO.IdsOk(RunAll(cfg, w, calls).learned)
  {
    hide Step, LegalRun, FiltersIoctl, IoctlConfig, IO.LearnAll, IO.TaughtIn, IO.IdsOk;
    RunLearns(cfg, w, calls);
    IO.LearningIsSound(IoctlConfig(cfg), w.learned, Heard(cfg, w, calls));
  }
}
