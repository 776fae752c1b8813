/** End to end: from the information files and the mounted device minors found when the library
    is loaded, to what the hooks deny and what a program has open after any run. */
module MountedGpus {
  import opened Text
  import opened PathNormalizer
  import opened GpuPaths
  import opened GpuTopology
  import opened Hooks
  import opened HookFilters
  import IO = IoctlFilter

  /** The switches and the allowed set of a library that found these files and minors. No uuid
      is asked for at load time, and at most 32 records are collected. */
  ghost predicate LoadedFrom(cfg: Config, files: seq<InfoFile>, minors: seq<int>) {
    && |ParsedInfos(files)| <= MAX_GPUS
    && cfg.allowed == Allowed(ParsedInfos(files), minors, "")
    && cfg.filterReady == cfg.allowed.valid
  }

  /** Some file names `bus`, for a device whose minor is mounted. */
  ghost predicate IsMounted(files: seq<InfoFile>, minors: seq<int>, bus: string) {
    exists info :: Describes(files, info) && info.deviceMinor in minors && info.busId == bus
  }

  ghost predicate Describes(files: seq<InfoFile>, info: GpuInfo) {
    exists i :: 0 <= i < |files| && ParseInformation(files[i].path, files[i].text) == Some(info)
  }

  lemma AllowedIffMounted(cfg: Config, files: seq<InfoFile>, minors: seq<int>, bus: string)
    requires LoadedFrom(cfg, files, minors) && bus != ""
    ensures AllowsBus(cfg.allowed, bus) <==> IsMounted(files, minors, bus)
  {
    hide ParseInformation, ParsedInfos, Allowed, AllowsBus, Describes;
    var infos := ParsedInfos(files);
    AllowedBusExact(infos, minors, "", bus);
    if info :| info in infos && info.present && info.deviceMinor in minors && info.busId == bus {
      ParsedIffDescribed(files, info);
    }
    if info :| Describes(files, info) && info.deviceMinor in minors && info.busId == bus {
      ParsedIffDescribed(files, info);
      DescribedIsPresent(files, info);
    }
  }

  lemma ParsedIffDescribed(files: seq<InfoFile>, info: GpuInfo)
    ensures info in ParsedInfos(files) <==> Describes(files, info)
  {
    ParsedInfosExact(files, info);
  }

  lemma DescribedIsPresent(files: seq<InfoFile>, info: GpuInfo)
    requires Describes(files, info)
    ensures info.present && info.busId != ""
  {
    var i :| 0 <= i < |files| && ParseInformation(files[i].path, files[i].text) == Some(info);
    ParsedFits(files[i].path, files[i].text);
  }

  /** The set is valid, and the filter in force, iff some GPU of a mounted minor is described. */
  lemma ReadyIffSomeMounted(cfg: Config, files: seq<InfoFile>, minors: seq<int>)
    requires LoadedFrom(cfg, files, minors)
    ensures cfg.filterReady <==> exists bus :: IsMounted(files, minors, bus)
  {
    hide ParseInformation, ParsedInfos, Describes, Allowed;
    var infos := ParsedInfos(files);
    var gpus := cfg.allowed.gpus;
    if cfg.allowed.valid || gpus != [] {
      AllowedExact(infos, minors, "", GpuInfo(false, 0, "", ""));
      assert gpus[0] in gpus;
      AllowedExact(infos, minors, "", gpus[0]);
      ParsedIffDescribed(files, gpus[0]);
      assert IsMounted(files, minors, gpus[0].busId);
    }
    if bus :| IsMounted(files, minors, bus) {
      var info :| Describes(files, info) && info.deviceMinor in minors && info.busId == bus;
      ParsedIffDescribed(files, info);
      DescribedIsPresent(files, info);
      AllowedExact(infos, minors, "", info);
      assert info in gpus;
    }
  }

  /** What is hidden, in terms of what was found: the buses without a mounted GPU, once any GPU
      is mounted at all. */
  lemma HiddenIffNotMounted(cfg: Config, files: seq<InfoFile>, minors: seq<int>, place: Place)
    requires cfg.gpuVideo && LoadedFrom(cfg, files, minors) && IsBusLocation(place) && place[4] != ""
    ensures Hidden(cfg, place) <==>
            !IsMounted(files, minors, place[4]) && exists bus :: IsMounted(files, minors, bus)
  {
    hide LoadedFrom, IsMounted, AllowsBus;
    AllowedIffMounted(cfg, files, minors, place[4]);
    ReadyIffSomeMounted(cfg, files, minors);
    ReadyIsValid(cfg, files, minors);
  }

  lemma ReadyIsValid(cfg: Config, files: seq<InfoFile>, minors: seq<int>)
    requires LoadedFrom(cfg, files, minors)
    ensures cfg.filterReady == cfg.allowed.valid
  {
  }

  /** An absolute name of a bus directory or of its information file is denied iff no file names
      that bus for a mounted minor, although some file names one. */
  lemma DeniedIffNotMounted(cfg: Config, files: seq<InfoFile>, minors: seq<int>, path: string)
    requires cfg.gpuVideo && LoadedFrom(cfg, files, minors)
    requires Absolute(path) && Normalize(path, PATH_MAX).Some? && IsBusLocation(Location(path))
    ensures Denied(cfg, path) <==>
            !IsMounted(files, minors, Location(path)[4]) && exists bus :: IsMounted(files, minors, bus)
  {
    hide LoadedFrom, IsMounted, Hidden, Denied, Normalize, Location;
    LocationOfNormalized(path);
    DeniedIffHidden(cfg, path);
    HiddenIffNotMounted(cfg, files, minors, Location(path));
  }

  lemma OpenBusIsMounted(cfg: Config, files: seq<InfoFile>, minors: seq<int>, file: OpenFile)
    requires cfg.gpuVideo && LoadedFrom(cfg, files, minors) && IsBusLocation(file.place)
    requires Absolute(file.path) && Normalize(file.path, PATH_MAX).Some?
    requires file.place == Location(file.path) && !Denied(cfg, file.path)
    ensures IsMounted(files, minors, file.place[4]) || !exists bus :: IsMounted(files, minors, bus)
  {
    hide LoadedFrom, IsMounted, Denied, Normalize, Location;
    DeniedIffNotMounted(cfg, files, minors, file.path);
  }

  /** After every run, each bus directory and information file that a program has open through
      the descriptor hooks, by an absolute name with a normal form or by a name below a tracked
      directory, belongs to a mounted GPU, unless no GPU is mounted at all. */
  lemma OpenBusesAreMounted(
    cfg: Config, files: seq<InfoFile>, minors: seq<int>, w: World, calls: seq<Call>, end: World, fd: int)
    requires cfg.gpuVideo && LoadedFrom(cfg, files, minors) && Initial(w) && LegalRun(cfg, w, calls)
    requires end == RunAll(cfg, w, calls)
    ensures fd in end.kernel && end.kernel[fd].via.Descriptor? && IsBusLocation(end.kernel[fd].place)
            && Absolute(end.kernel[fd].path) && Normalize(end.kernel[fd].path, PATH_MAX).Some? ==>
              IsMounted(files, minors, end.kernel[fd].place[4]) || !exists bus :: IsMounted(files, minors, bus)
  {
    hide LoadedFrom, IsMounted, IsBusLocation, Denied, Normalize, Location, LegalRun, RunAll, Classify, ShowsMemory;
    EveryRunIsSafe(cfg, w, calls);
    if fd in end.kernel && end.kernel[fd].via.Descriptor? && IsBusLocation(end.kernel[fd].place)
       && Absolute(end.kernel[fd].path) && Normalize(end.kernel[fd].path, PATH_MAX).Some? {
      OpenBusIsMounted(cfg, files, minors, end.kernel[fd]);
    }
  }

  // ----- RM replies

  /** Some file describes a GPU of this minor, and the minor is mounted. */
  ghost predicate MinorMounted(files: seq<InfoFile>, minors: seq<int>, minor: int) {
    minor in minors && exists info :: Describes(files, info) && info.deviceMinor == minor
  }

  lemma MinorAllowedIffMounted(cfg: Config, files: seq<InfoFile>, minors: seq<int>, minor: IO.U32)
    requires LoadedFrom(cfg, files, minors)
    ensures (exists gpu :: gpu in cfg.allowed.gpus && gpu.present && gpu.deviceMinor == minor) <==>
            MinorMounted(files, minors, minor)
    ensures cfg.filterReady ==> (IO.AllowsMinor(cfg.allowed, minor) <==> MinorMounted(files, minors, minor))
  {
    hide ParseInformation, ParsedInfos, Allowed, Describes;
    var infos, gpus := ParsedInfos(files), cfg.allowed.gpus;
    forall gpu: GpuInfo
      ensures gpu in gpus <==> Describes(files, gpu) && gpu.deviceMinor in minors
    {
      AllowedExact(infos, minors, "", gpu);
      ParsedIffDescribed(files, gpu);
      if Describes(files, gpu) {
        DescribedIsPresent(files, gpu);
      }
    }
    forall gpu | Describes(files, gpu)
      ensures gpu.present
    {
      DescribedIsPresent(files, gpu);
    }
  }

  /** A card-info reply on a descriptor of the control device: once any GPU is mounted, a card
      is shown as valid iff the driver says so and a file describes a GPU of its minor, which is
      mounted. Nothing else of a card changes. */
  lemma CardsShowMounted(
    cfg: Config, files: seq<InfoFile>, minors: seq<int>, w: World, fd: int, cards: seq<IO.Card>, i: nat)
    requires cfg.gpuVideo && cfg.gpuIoctl && LoadedFrom(cfg, files, minors)
    requires exists bus :: IsMounted(files, minors, bus)
    requires fd in w.tracker && w.tracker[fd].kind == NvidiaCtl && |cards| == 32 && i < 32
    ensures var out := HandedOn(cfg, w, fd, 0, IO.CardInfo(cards));
            && out.CardInfo? && |out.cards| == 32
            && out.cards[i].gpuId == cards[i].gpuId && out.cards[i].minor == cards[i].minor
            && (out.cards[i].valid <==> cards[i].valid && MinorMounted(files, minors, cards[i].minor))
  {
    hide LoadedFrom, HandedOn, MinorMounted, IsMounted, Step;
    ReadyIffSomeMounted(cfg, files, minors);
    ReadyIsValid(cfg, files, minors);
    RepliesByConfig(cfg, w, fd, 0, IO.CardInfo(cards));
    MinorAllowedIffMounted(cfg, files, minors, cards[i].minor);
  }

  /** And the ids of these valid cards are learned, unless the 32 places are taken. */
  lemma MountedCardsAreLearned(
    cfg: Config, files: seq<InfoFile>, minors: seq<int>, w: World, fd: int, cards: seq<IO.Card>, i: nat)
    requires cfg.gpuVideo && cfg.gpuIoctl && LoadedFrom(cfg, files, minors) && IO.IdsOk(w.learned)
    requires fd in w.tracker && w.tracker[fd].kind == NvidiaCtl && |cards| == 32 && i < 32
    requires cards[i].valid && MinorMounted(files, minors, cards[i].minor) && cards[i].gpuId != 0xffff_ffff
    ensures var learned := Step(cfg, w, Ioctl(fd, 0, IO.CardInfo(cards))).learned;
            cards[i].gpuId in learned || |learned| == 32
  {
    hide LoadedFrom, Step, IO.IdsOk, Describes;
    MinorAllowedIffMounted(cfg, files, minors, cards[i].minor);
    SetWithMember(cfg, files, minors);
    LearnedByConfig(cfg, w, fd, cards, cards[i].gpuId);
  }

  lemma SetWithMember(cfg: Config, files: seq<InfoFile>, minors: seq<int>)
    requires LoadedFrom(cfg, files, minors) && cfg.allowed.gpus != []
    ensures cfg.filterReady && cfg.allowed.valid
  {
    AllowedExact(ParsedInfos(files), minors, "", cfg.allowed.gpus[0]);
  }

  /** The id stands in a valid card of a mounted minor, in one of the successful replies. */
  ghost predicate CardHeard(files: seq<InfoFile>, minors: seq<int>, heard: seq<IO.Event>, id: IO.U32) {
    exists k, card :: 0 <= k < |heard| && heard[k].result == 0 && heard[k].reply.CardInfo?
                      && card in heard[k].reply.cards && card.valid && card.gpuId == id
                      && MinorMounted(files, minors, card.minor)
  }

  lemma TaughtIsMounted(cfg: Config, files: seq<InfoFile>, minors: seq<int>, heard: seq<IO.Event>, id: IO.U32)
    requires LoadedFrom(cfg, files, minors) && IO.TaughtIn(IoctlConfig(cfg), heard, id)
    ensures CardHeard(files, minors, heard, id)
  {
    hide LoadedFrom, MinorMounted, IO.AllowsMinor;
    var allowed := IoctlConfig(cfg).allowed;
    var k :| 0 <= k < |heard| && heard[k].result == 0 && heard[k].reply.CardInfo?
             && IO.Teaches(allowed, heard[k].reply.cards, id);
    var cards := heard[k].reply.cards;
    var c :| 0 <= c < |cards| && cards[c].valid && IO.AllowsMinor(allowed, cards[c].minor) && cards[c].gpuId == id;
    assert cfg.filterReady by {
      NothingAllowed(cards[c].minor);
    }
    MinorAllowedIffMounted(cfg, files, minors, cards[c].minor);
    assert cards[c] in cards;
  }

  lemma NothingAllowed(minor: IO.U32)
    ensures !IO.AllowsMinor(AllowedGpus(false, []), minor)
  {
  }

  /** After every run, each learned id, and each id that a filtered reply shows, stood in a valid
      card of a mounted minor, in a successful reply that an ioctl on a tracked control
      descriptor got earlier in the run. */
  lemma ShownIdsAreMounted(
    cfg: Config, files: seq<InfoFile>, minors: seq<int>, w: World, calls: seq<Call>, end: World,
    fd: int, reply: IO.Reply, id: IO.U32)
    requires LoadedFrom(cfg, files, minors) && Initial(w) && LegalRun(cfg, w, calls)
    requires end == RunAll(cfg, w, calls) && IO.Sized(reply)
    ensures id in end.learned ==> CardHeard(files, minors, Heard(cfg, w, calls), id)
    ensures cfg.gpuVideo && cfg.gpuIoctl && cfg.filterReady && FiltersIoctl(cfg, end, fd)
            && IO.CanFilter(end.learned, 0, reply) && IO.Shows(HandedOn(cfg, end, fd, 0, reply), id) ==>
              CardHeard(files, minors, Heard(cfg, w, calls), id)
  {
    hide LoadedFrom, CardHeard, Step, LegalRun, FiltersIoctl, IO.LearnAll, IO.Rewritten, IO.Shows, IO.TaughtIn;
    RunLearns(cfg, w, calls);
    var heard := Heard(cfg, w, calls);
    IO.LearningIsSound(IoctlConfig(cfg), [], heard);
    if id in end.learned {
      TaughtIsMounted(cfg, files, minors, heard, id);
    }
    if cfg.gpuVideo && cfg.gpuIoctl && cfg.filterReady && FiltersIoctl(cfg, end, fd)
       && IO.CanFilter(end.learned, 0, reply) && IO.Shows(HandedOn(cfg, end, fd, 0, reply), id) {
      ReadyIsValid(cfg, files, minors);
      ShownIsLearned(cfg, w, calls, end, fd, reply, id);
      TaughtIsMounted(cfg, files, minors, heard, id);
    }
  }

  lemma ShownIsLearned(
    cfg: Config, w: World, calls: seq<Call>, end: World, fd: int, reply: IO.Reply, id: IO.U32)
    requires Initial(w) && LegalRun(cfg, w, calls) && end == RunAll(cfg, w, calls) && IO.Sized(reply)
    requires cfg.gpuVideo && cfg.gpuIoctl && cfg.filterReady && cfg.allowed.valid && FiltersIoctl(cfg, end, fd)
    requires IO.CanFilter(end.learned, 0, reply) && IO.Shows(HandedOn(cfg, end, fd, 0, reply), id)
    ensures IO.TaughtIn(IoctlConfig(cfg), Heard(cfg, w, calls), id)
  {
    hide Step, LegalRun, FiltersIoctl, RunAll, Heard, HandedOn, IO.LearnAll, IO.Rewritten, IO.TaughtIn;
    if reply.Attached? || reply.Active? {
      RunsShowOnlyTaught(cfg, w, calls, fd, 0, reply, id);
    } else {
      RepliesByConfig(cfg, end, fd, 0, reply);
    }
  }
}
