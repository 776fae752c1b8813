/** Which paths belong to the GPU view: the classification kept for an opened descriptor,
    and the allow/deny decision taken before opening. Both normalise the path first. */
module GpuPaths {
  import opened Text
  import opened PathNormalizer
  import opened Numbers

  const BASE := "/proc/driver/nvidia/gpus"
  const BASE_SEGMENTS: seq<string> := ["proc", "driver", "nvidia", "gpus"]
  const DEVICE_PREFIX := "/dev/nvidia"
  const INFORMATION := "information"
  const PATH_MAX := 256
  const BUS_ID_MAX := 32
  const UUID_MAX := 96
  const MAX_GPUS := 32

  datatype Kind =
    | Other
    | NvidiaCtl
    | NvidiaDevice
    | NvidiaUvm
    | ProcGpusDir
    | ProcGpuBusDir
    | ProcGpuInfo

  datatype FdRecord = FdRecord(kind: Kind, deviceMinor: int, path: string, busId: string)

  datatype Classification = Classification(found: bool, record: FdRecord)

  datatype GpuInfo = GpuInfo(present: bool, deviceMinor: int, busId: string, uuid: string)

  /** The GPUs of the container. A caller without a detected topology holds a set that is
      not valid. */
  datatype AllowedGpus = AllowedGpus(valid: bool, gpus: seq<GpuInfo>)

  datatype Decision = Ignore | Allow | Deny

  datatype BusPath = NotABusPath | BusDir(busId: string) | BusInformation(busId: string)

  predicate AllowsBus(allowed: AllowedGpus, busId: string) {
    allowed.valid && busId != "" &&
    exists i :: 0 <= i < |allowed.gpus| && allowed.gpus[i].busId == busId
  }

  /** The fixed-size fields of the allowed set hold what they can hold. */
  predicate FitsArrays(allowed: AllowedGpus) {
    |allowed.gpus| <= MAX_GPUS &&
    forall i :: 0 <= i < |allowed.gpus| ==> |allowed.gpus[i].busId| < BUS_ID_MAX
  }

  function CopyTruncated(s: string, size: nat): string
    requires size > 0
  {
    if |s| >= size then s[..size-1] else s
  }

  // ----- classification (fd_tracker.c)

  function ClassifyNormalized(normalized: string, unset: FdRecord): Classification {
    var record := unset.(path := CopyTruncated(normalized, PATH_MAX));
    if normalized == BASE then Classification(true, record.(kind := ProcGpusDir))
    else if !(BASE + "/" <= normalized) then Classification(false, unset)
    else
      var rest := normalized[|BASE|+1..];
      var slash := Find(rest, '/');
      if slash == 0 || slash >= BUS_ID_MAX then Classification(false, unset)
      else if slash == |rest| then
        Classification(true, record.(kind := ProcGpuBusDir, busId := rest))
      else if rest[slash+1..] == INFORMATION then
        Classification(true, record.(kind := ProcGpuInfo, busId := rest[..slash]))
      else Classification(false, unset)
  }

  function Classify(path: string): Classification {
    var unset := FdRecord(Other, -1, CopyTruncated(path, PATH_MAX), "");
    if path == "/dev/nvidiactl" then Classification(true, unset.(kind := NvidiaCtl))
    else if path == "/dev/nvidia-uvm" then Classification(true, unset.(kind := NvidiaUvm))
    else
      match ParseMinorAfter(DEVICE_PREFIX, path)
      case Some(minor) => Classification(true, unset.(kind := NvidiaDevice, deviceMinor := minor))
      case None =>
        match Normalize(path, PATH_MAX)
        case None => Classification(false, unset)
        case Some(normalized) => ClassifyNormalized(normalized, unset)
  }

  method ClassifyPath(path: string) returns (c: Classification)
    requires CString(path)
    ensures c == Classify(path)
  {
    var record := FdRecord(Other, -1, CopyTruncated(path, PATH_MAX), "");
    if path == "/dev/nvidiactl" {
      return Classification(true, record.(kind := NvidiaCtl));
    }
    if path == "/dev/nvidia-uvm" {
      return Classification(true, record.(kind := NvidiaUvm));
    }
    var minor := ParseMinor(DEVICE_PREFIX, path);
    if minor.Some? {
      return Classification(true, record.(kind := NvidiaDevice, deviceMinor := minor.value));
    }
    var buffer := new char[PATH_MAX];
    var ok := NormalizePath(path, buffer);
    if !ok {
      return Classification(false, record);
    }
    NormalizeIsCString(path, PATH_MAX);
    var normalized := ReadString(buffer, Normalize(path, PATH_MAX).value);
    c := ClassifyNormalized(normalized, record);
  }

  // ----- the allow/deny decision (proc_filter.c)

  function ExtractBus(path: string): BusPath {
    match Normalize(path, PATH_MAX)
    case None => NotABusPath
    case Some(normalized) =>
      if !(BASE + "/" <= normalized) then NotABusPath
      else
        var rest := normalized[|BASE|+1..];
        var slash := Find(rest, '/');
        if slash == 0 || slash >= BUS_ID_MAX then NotABusPath
        else if slash == |rest| then BusDir(rest)
        else if rest[slash+1..] == INFORMATION then BusInformation(rest[..slash])
        else NotABusPath
  }

  /** The decision normalises the path, and its bus extraction normalises the result again. */
  function Decide(allowed: AllowedGpus, path: string): Decision {
    match Normalize(path, PATH_MAX)
    case None => Ignore
    case Some(normalized) =>
      if normalized == BASE then Allow
      else
        var bus := ExtractBus(normalized);
        if bus.NotABusPath? then Ignore
        else if !allowed.valid then Allow
        else if AllowsBus(allowed, bus.busId) then Allow
        else Deny
  }

  method ContainsBus(allowed: AllowedGpus, busId: string) returns (found: bool)
    ensures found == AllowsBus(allowed, busId)
  {
    if !allowed.valid || busId == "" {
      return false;
    }
    var i := 0;
    while i < |allowed.gpus|
      invariant i <= |allowed.gpus|
      invariant forall j :: 0 <= j < i ==> allowed.gpus[j].busId != busId
    {
      if allowed.gpus[i].busId == busId {
        return true;
      }
      i := i + 1;
    }
    found := false;
  }

  /** What the extraction leaves in the caller's bus buffer: a bus that fits is copied before
      the rest of the path is looked at. */
  function CopiedBus(path: string): string {
    match Normalize(path, PATH_MAX)
    case None => ""
    case Some(normalized) =>
      if !(BASE + "/" <= normalized) then ""
      else
        var rest := normalized[|BASE|+1..];
        var slash := Find(rest, '/');
        if slash >= BUS_ID_MAX then "" else rest[..slash]
  }

  method ExtractProcBus(path: string) returns (bus: BusPath, copied: string)
    requires CString(path)
    ensures bus == ExtractBus(path) && copied == CopiedBus(path)
  {
    var buffer := new char[PATH_MAX];
    bus, copied := NotABusPath, "";
    var ok := NormalizePath(path, buffer);
    if !ok {
      return;
    }
    NormalizeIsCString(path, PATH_MAX);
    var normalized := ReadString(buffer, Normalize(path, PATH_MAX).value);
    if !(BASE + "/" <= normalized) {
      return;
    }
    var rest := normalized[|BASE|+1..];
    var slash := Find(rest, '/');
    if slash == 0 || slash >= BUS_ID_MAX {
      return;
    }
    copied := rest[..slash];
    if slash == |rest| {
      bus := BusDir(copied);
    } else if rest[slash+1..] == INFORMATION {
      bus := BusInformation(copied);
    }
  }

  method ProcPathAllowed(allowed: AllowedGpus, path: string) returns (d: Decision)
    requires CString(path)
    ensures d == Decide(allowed, path)
  {
    var buffer := new char[PATH_MAX];
    var ok := NormalizePath(path, buffer);
    if !ok {
      return Ignore;
    }
    NormalizeIsCString(path, PATH_MAX);
    var normalized := ReadString(buffer, Normalize(path, PATH_MAX).value);
    if normalized == BASE {
      return Allow;
    }
    var bus, copied := ExtractProcBus(normalized);
    if bus.NotABusPath? {
      return Ignore;
    }
    if !allowed.valid {
      return Allow;
    }
    var found := ContainsBus(allowed, bus.busId);
    d := if found then Allow else Deny;
  }

  // ----- where a path leads, independently of how it is spelled

  /** The directory a path names lexically, with no limits on depth or length. */
  function Location(path: string): seq<string> {
    Survivors(Tokens(path, '/'), 0)
  }

  predicate IsBusLocation(loc: seq<string>) {
    (|loc| == 5 || (|loc| == 6 && loc[5] == INFORMATION)) &&
    loc[..4] == BASE_SEGMENTS && |loc[4]| < BUS_ID_MAX
  }

  lemma JoinOfFour(a: string, b: string, c: string, d: string)
    ensures Join([a, b, c, d]) == "/" + a + "/" + b + "/" + c + "/" + d
  {
    assert [a, b, c, d][1..] == [b, c, d] && [b, c, d][1..] == [c, d] && [c, d][1..] == [d];
    JoinOfWord(d);
    assert Join([c, d]) == "/" + c + ("/" + d);
    assert Join([b, c, d]) == "/" + b + Join([c, d]);
    assert Join([a, b, c, d]) == "/" + a + Join([b, c, d]);
  }

  lemma BaseIsJoin()
    ensures Join(BASE_SEGMENTS) == BASE && AllPlain(BASE_SEGMENTS)
  {
    JoinOfFour("proc", "driver", "nvidia", "gpus");
    hide Join;
  }

  lemma TokensOfBase()
    ensures Tokens(BASE, '/') == BASE_SEGMENTS
  {
    BaseIsJoin();
    TokensOfJoin(BASE_SEGMENTS);
  }

  lemma RenderFromBase(loc: seq<string>)
    requires |loc| >= 4 && loc[..4] == BASE_SEGMENTS
    ensures Render(loc) == BASE + Join(loc[4..])
  {
    BaseIsJoin();
    assert loc == BASE_SEGMENTS + loc[4..];
    JoinConcat(BASE_SEGMENTS, loc[4..]);
  }

  lemma LocationUnderBase(loc: seq<string>)
    requires AllPlain(loc) && (Render(loc) == BASE || BASE + "/" <= Render(loc))
    ensures |loc| >= 4 && loc[..4] == BASE_SEGMENTS
  {
    RenderedIsCanonical(loc);
    TokensBelow(BASE, Render(loc), '/');
    TokensOfBase();
  }

  /** Below the base directory, the text after the base is the rest of the location. */
  lemma RenderBelowBase(loc: seq<string>)
    requires AllPlain(loc)
    ensures Render(loc) == BASE <==> loc == BASE_SEGMENTS
    ensures BASE + "/" <= Render(loc) <==> |loc| > 4 && loc[..4] == BASE_SEGMENTS
    ensures BASE + "/" <= Render(loc) ==> Render(loc)[|BASE|..] == Join(loc[4..])
  {
    if Render(loc) == BASE || BASE + "/" <= Render(loc) {
      LocationUnderBase(loc);
    }
    if |loc| >= 4 && loc[..4] == BASE_SEGMENTS {
      RenderFromBase(loc);
      if |loc| == 4 {
        assert loc == BASE_SEGMENTS && loc[4..] == [];
      } else {
        assert Join(loc[4..])[0] == '/';
        assert loc != BASE_SEGMENTS;
      }
    }
  }

  /** The bus id is the fifth segment, and only `information` may follow it. */
  lemma RestOfBusPath(loc: seq<string>)
    requires AllPlain(loc) && |loc| > 4
    ensures var rest := Join(loc[4..])[1..];
            Find(rest, '/') == |loc[4]| && rest[..|loc[4]|] == loc[4] &&
            (|loc| == 5 <==> |rest| == |loc[4]|) &&
            (|loc| > 5 ==> rest[|loc[4]|+1..] == Join(loc[5..])[1..])
  {
    var rest := Join(loc[4..])[1..];
    assert loc[4..][1..] == loc[5..];
    assert rest == loc[4] + Join(loc[5..]);
    assert rest[..|loc[4]|] == loc[4];
    FindUnique(rest, '/', |loc[4]|);
  }

  lemma TailIsInformation(tail: seq<string>)
    requires AllPlain(tail) && tail != []
    ensures Join(tail)[1..] == INFORMATION <==> tail == [INFORMATION]
  {
    FieldsOfJoin(tail);
    FindUnique(INFORMATION, '/', |INFORMATION|);
    assert Fields(INFORMATION, '/') == [INFORMATION];
    if tail == [INFORMATION] {
      assert Join(tail[1..]) == "";
      assert Join(tail) == "/" + INFORMATION;
    }
  }

  lemma LocationOfNormalized(path: string)
    requires Normalize(path, PATH_MAX).Some?
    ensures var q := Normalize(path, PATH_MAX).value;
            AllPlain(Location(path)) && q == Render(Location(path)) && |q| < PATH_MAX &&
            Normalize(q, PATH_MAX) == Some(q) && Location(q) == Location(path)
  {
    var q := Normalize(path, PATH_MAX).value;
    NormalizeResult(path, PATH_MAX, q);
    CanonicalIsRendered(q);
    NormalizeIdempotent(path, PATH_MAX, q);
    NormalizeResult(q, PATH_MAX, q);
  }

  lemma BusOfLocation(path: string)
    ensures var loc, bus := Location(path), ExtractBus(path);
            bus.NotABusPath? <==> Normalize(path, PATH_MAX) == None || !IsBusLocation(loc)
    ensures var loc, bus := Location(path), ExtractBus(path);
            !bus.NotABusPath? ==> bus.busId == loc[4] && (bus.BusInformation? <==> |loc| == 6)
  {
    if Normalize(path, PATH_MAX).Some? {
      LocationOfNormalized(path);
      var loc := Location(path);
      RenderBelowBase(loc);
      if |loc| > 4 && loc[..4] == BASE_SEGMENTS {
        RestOfBusPath(loc);
        assert Render(loc)[|BASE|+1..] == Join(loc[4..])[1..];
        if |loc| > 5 {
          TailIsInformation(loc[5..]);
        }
      }
    }
  }

  /** The decision depends only on the location: the directory itself is allowed, a bus
      directory or its information file is denied iff the set is valid and lacks the bus,
      everything else (too deep or too long paths included) is ignored. */
  lemma DecisionByLocation(allowed: AllowedGpus, path: string)
    ensures var loc := Location(path);
            Decide(allowed, path) ==
              if Normalize(path, PATH_MAX) == None then Ignore
              else if loc == BASE_SEGMENTS then Allow
              else if !IsBusLocation(loc) then Ignore
              else if allowed.valid && !AllowsBus(allowed, loc[4]) then Deny
              else Allow
  {
    if Normalize(path, PATH_MAX).Some? {
      LocationOfNormalized(path);
      RenderBelowBase(Location(path));
      BusOfLocation(Normalize(path, PATH_MAX).value);
    }
  }

  predicate IsProcKind(kind: Kind) {
    kind == ProcGpusDir || kind == ProcGpuBusDir || kind == ProcGpuInfo
  }

  predicate NamesBus(kind: Kind) {
    kind == ProcGpuBusDir || kind == ProcGpuInfo
  }

  lemma LocationOfTwo(a: string, b: string)
    requires Plain(a) && Plain(b)
    ensures Location("/" + a + "/" + b) == [a, b]
  {
    var segs := [a, b];
    JoinOfWord(b);
    JoinCons(a, [b]);
    assert [a] + [b] == segs;
    assert "/" + a + "/" + b == "/" + a + ("/" + b);
    TokensOfJoin(segs);
    WalkOfPlain([], segs);
    assert [] + segs == segs;
    WalkIsSurvivors(segs);
  }

  lemma DeviceLocation(name: string)
    requires Plain(name)
    ensures Location("/dev/" + name) == ["dev", name]
  {
    LocationOfTwo("dev", name);
    assert "/" + "dev" + "/" == "/dev/";
  }

  /** The three device tests of the classifier, on the raw text of the path. */
  predicate IsDevicePath(path: string) {
    path == "/dev/nvidiactl" || path == "/dev/nvidia-uvm" || ParseMinorAfter(DEVICE_PREFIX, path).Some?
  }

  /** A device path is not the spelling of any path of the GPU view. */
  lemma DevicePathsAreOutside(path: string)
    requires IsDevicePath(path)
    ensures |Location(path)| == 2
  {
    var name := path[5..];
    assert path == "/dev/" + name;
    if path != "/dev/nvidiactl" && path != "/dev/nvidia-uvm" {
      var digits := path[|DEVICE_PREFIX|..];
      assert name == "nvidia" + digits;
    }
    DeviceLocation(name);
  }

  /** Without the device branches, both readings extract the same bus from the normal form. */
  lemma ClassifyMatchesExtract(path: string, unset: FdRecord)
    requires Normalize(path, PATH_MAX).Some? && unset.kind == Other
    ensures var q := Normalize(path, PATH_MAX).value; var c := ClassifyNormalized(q, unset); var bus := ExtractBus(q);
            && c.record.kind == (if q == BASE then ProcGpusDir else if bus.BusDir? then ProcGpuBusDir
                                 else if bus.BusInformation? then ProcGpuInfo else Other)
            && c.found == (c.record.kind != Other)
            && (q != BASE && !bus.NotABusPath? ==> c.record.busId == bus.busId)
  {
    NormalizeIdempotent(path, PATH_MAX, Normalize(path, PATH_MAX).value);
  }

  /** The two independent readings of a path agree: what the tracker would record for it
      and what the filter decides about it. */
  lemma DecisionAgreesWithClassification(allowed: AllowedGpus, path: string)
    ensures var c := Classify(path);
            Decide(allowed, path) == Ignore <==> !(c.found && IsProcKind(c.record.kind))
    ensures var c := Classify(path);
            Decide(allowed, path) == Deny <==>
            c.found && NamesBus(c.record.kind) && allowed.valid && !AllowsBus(allowed, c.record.busId)
  {
    if IsDevicePath(path) {
      DevicePathsAreOutside(path);
      DecisionByLocation(allowed, path);
    } else if Normalize(path, PATH_MAX).Some? {
      ClassifyMatchesExtract(path, FdRecord(Other, -1, CopyTruncated(path, PATH_MAX), ""));
    }
  }

  /** A tracked procfs descriptor records its own normal form and, for a bus, one plain
      segment that fits the bus id field. */
  lemma ProcRecordShape(path: string)
    ensures var c := Classify(path);
            c.found && IsProcKind(c.record.kind) ==>
              && Normalize(path, PATH_MAX) == Some(c.record.path)
              && (c.record.kind == ProcGpusDir ==> c.record.path == BASE && c.record.busId == "")
              && (NamesBus(c.record.kind) ==> Plain(c.record.busId) && |c.record.busId| < BUS_ID_MAX)
              && (c.record.kind == ProcGpuBusDir ==> c.record.path == BASE + "/" + c.record.busId)
              && (c.record.kind == ProcGpuInfo ==> c.record.path == BASE + "/" + c.record.busId + "/" + INFORMATION)
  {
    hide Normalize, ClassifyNormalized, Location, Render, Join, Find;
    if Normalize(path, PATH_MAX).Some? {
      LocationOfNormalized(path);
      var q, loc := Normalize(path, PATH_MAX).value, Location(path);
      RenderBelowBase(loc);
      if BASE + "/" <= q {
        RestOfBusPath(loc);
        NormalizedShape(q, FdRecord(Other, -1, CopyTruncated(path, PATH_MAX), ""), loc[4]);
      } else {
        NormalizedOutside(q, FdRecord(Other, -1, CopyTruncated(path, PATH_MAX), ""));
      }
    }
  }

  lemma NormalizedOutside(q: string, unset: FdRecord)
    requires |q| < PATH_MAX && !(BASE + "/" <= q) && unset.busId == ""
    ensures var c := ClassifyNormalized(q, unset);
            c.found ==> q == BASE && c.record == FdRecord(ProcGpusDir, unset.deviceMinor, BASE, "")
  {
  }

  /** The text of a path below the base: the bus, or the bus and its information file. */
  lemma NormalizedShape(q: string, unset: FdRecord, bus: string)
    requires |q| < PATH_MAX && BASE + "/" <= q
    requires var rest := q[|BASE|+1..]; Find(rest, '/') == |bus| && rest[..|bus|] == bus
    ensures var c := ClassifyNormalized(q, unset);
            c.found ==>
              && c.record.path == q && c.record.busId == bus && 0 < |bus| < BUS_ID_MAX
              && (c.record.kind == ProcGpuBusDir || c.record.kind == ProcGpuInfo)
              && (c.record.kind == ProcGpuBusDir ==> q == BASE + "/" + bus)
              && (c.record.kind == ProcGpuInfo ==> q == BASE + "/" + bus + "/" + INFORMATION)
  {
    hide Find;
    SplitBelow(BASE, q, bus);
  }

  lemma SplitBelow(base: string, q: string, bus: string)
    requires base + "/" <= q
    requires var rest := q[|base|+1..]; Find(rest, '/') == |bus| && rest[..|bus|] == bus
    ensures var rest := q[|base|+1..];
            q == if |rest| == |bus| then base + "/" + bus else base + "/" + bus + "/" + rest[|bus|+1..]
  {
    var rest := q[|base|+1..];
    assert q == base + "/" + rest;
    if |bus| < |rest| {
      assert rest == bus + "/" + rest[|bus|+1..];
    }
  }

  /** The normal form of a path spelled another way is a device path: the device branches
      compare the raw text, so they see the one and miss the other. */
  predicate IsRespeltDevice(path: string, q: string) {
    IsDevicePath(q) && path != q
  }

  /** A device path with a normal form is its own normal form. */
  lemma DevicePathIsNormal(path: string)
    requires IsDevicePath(path) && Normalize(path, PATH_MAX).Some?
    ensures Normalize(path, PATH_MAX) == Some(path)
  {
    var name := path[5..];
    assert path == "/dev/" + name;
    PlainDeviceName(path);
    DeviceLocation(name);
    LocationOfNormalized(path);
    DeviceRendering(name);
  }

  lemma PlainDeviceName(path: string)
    requires IsDevicePath(path)
    ensures |path| >= 5 && "/dev/" <= path && Plain(path[5..])
  {
    if path != "/dev/nvidiactl" && path != "/dev/nvidia-uvm" {
      var digits := path[|DEVICE_PREFIX|..];
      assert path[5..] == "nvidia" + digits;
    }
  }

  lemma DeviceRendering(name: string)
    ensures Render(["dev", name]) == "/dev/" + name
  {
    JoinOfWord(name);
    JoinCons("dev", [name]);
    assert ["dev"] + [name] == ["dev", name];
    assert "/" + "dev" + ("/" + name) == "/dev/" + name;
  }

  /** A path and its normal form are classified alike, unless the normal form is a device path
      and the path another spelling of it; then only the normal form is classified. */
  lemma ClassifyIgnoresSpelling(path: string, q: string)
    requires Normalize(path, PATH_MAX) == Some(q)
    ensures Classify(q).found == Classify(path).found <==> !IsRespeltDevice(path, q)
    ensures Classify(path).found ==> Classify(q) == Classify(path)
    ensures IsRespeltDevice(path, q) ==> Classify(q).found && !Classify(path).found
  {
    LocationOfNormalized(path);
    if IsDevicePath(path) {
      DevicePathIsNormal(path);
    } else if IsDevicePath(q) {
      DevicePathsAreOutside(q);
      OutsideIsNotClassified(path);
    } else {
      hide Normalize, Location, ParseMinorAfter;
    }
  }

  /** Two segments lead nowhere in the GPU directory. */
  lemma OutsideIsNotClassified(path: string)
    requires !IsDevicePath(path) && |Location(path)| == 2
    ensures !Classify(path).found
  {
    if Normalize(path, PATH_MAX).Some? {
      LocationOfNormalized(path);
      RenderBelowBase(Location(path));
      hide Normalize, Location;
    }
  }

  /** For example the spelling with a second slash, which the kernel opens all the same. */
  lemma RespeltDeviceIsMissed(name: string)
    requires IsDevicePath("/dev/" + name) && |name| < PATH_MAX - 5
    ensures Normalize("/dev/" + "/" + name, PATH_MAX) == Some("/dev/" + name)
    ensures Classify("/dev/" + name).found && !Classify("/dev/" + "/" + name).found
  {
    var path, q, segs := "/dev/" + "/" + name, "/dev/" + name, ["dev", name];
    PlainDeviceName(q);
    assert q[5..] == name;
    RespeltLocation(name);
    DeviceRendering(name);
    WalkOfPlain([], segs);
    assert [] + segs == segs;
    assert path[0] == '/' && |path| == |name| + 6 && |q| == |name| + 5;
    hide Tokens, Render;
    assert Normalize(path, PATH_MAX) == Some(q);
    ClassifyIgnoresSpelling(path, q);
  }

  lemma RespeltLocation(name: string)
    requires Plain(name)
    ensures Tokens("/dev/" + "/" + name, '/') == ["dev", name]
  {
    TokensOfJoined("/dev/", name, '/');
    TokensOfWord(name, '/');
    TokensOfJoined("", "dev/", '/');
    assert "" + "/" + "dev/" == "/dev/";
    TokensOfJoined("dev", "", '/');
    TokensOfWord("dev", '/');
    assert "dev" + "/" + "" == "dev/";
    NoTokens('/');
    hide Tokens;
  }

  /** Which paths get the two kinds the other hooks act on: every spelling of the directory,
      and one spelling of the control device. */
  lemma KindsByPath(path: string)
    ensures Classify(path).found && Classify(path).record.kind == ProcGpusDir <==>
            Normalize(path, PATH_MAX) == Some(BASE)
    ensures Classify(path).found && Classify(path).record.kind == NvidiaCtl <==> path == "/dev/nvidiactl"
    ensures Classify(path).found && Classify(path).record.kind == NvidiaUvm <==> path == "/dev/nvidia-uvm"
  {
    BaseIsJoin();
    if Normalize(path, PATH_MAX) == Some(BASE) {
      LocationOfNormalized(path);
      RenderBelowBase(Location(path));
    }
    if IsDevicePath(path) {
      DevicePathsAreOutside(path);
    }
    hide Normalize, Location;
  }

  /** Device n is what the digits behind the prefix print, leading zeros allowed; and what is
      recorded of a device. */
  lemma DevicesByPath(path: string, n: nat)
    ensures var c := Classify(path);
            c.found && c.record.kind == NvidiaDevice && c.record.deviceMinor == n <==>
            n <= 0x7fff_ffff && exists k: nat :: path == "/dev/nvidia" + (Zeros(k) + Print(n))
    ensures var c := Classify(path);
            c.found && !IsProcKind(c.record.kind) ==>
              && c.record.path == (if |path| < 256 then path else path[..255]) && c.record.busId == ""
              && (c.record.kind == NvidiaCtl || c.record.kind == NvidiaUvm || c.record.kind == NvidiaDevice)
              && (c.record.kind != NvidiaDevice ==> c.record.deviceMinor == -1)
  {
    hide Normalize, Print, ParseNumber;
    MinorInvertsPrint("/dev/nvidia", path, n);
    NotMinors(n);
  }

  lemma NotMinors(n: nat)
    ensures ParseMinorAfter("/dev/nvidia", "/dev/nvidiactl") == None
    ensures ParseMinorAfter("/dev/nvidia", "/dev/nvidia-uvm") == None
  {
    assert "/dev/nvidiactl"[11..][0] == 'c';
    assert "/dev/nvidia-uvm"[11..][0] == '-';
  }

  /** The two kinds below the GPU directory, by the segments of the path. */
  lemma BusKindsByLocation(path: string, bus: string)
    ensures var c := Classify(path);
            c.found && c.record.kind == ProcGpuBusDir && c.record.busId == bus <==>
            Normalize(path, 256).Some? && |bus| < 32 && Location(path) == ["proc", "driver", "nvidia", "gpus", bus]
    ensures var c := Classify(path);
            c.found && c.record.kind == ProcGpuInfo && c.record.busId == bus <==>
            && Normalize(path, 256).Some? && |bus| < 32
            && Location(path) == ["proc", "driver", "nvidia", "gpus", bus, "information"]
  {
    hide Normalize, Location, ExtractBus, ClassifyNormalized;
    BusOfLocation(path);
    if IsDevicePath(path) {
      DevicePathsAreOutside(path);
      hide ParseMinorAfter;
    } else if Normalize(path, PATH_MAX).Some? {
      LocationOfNormalized(path);
      RenderBelowBase(Location(path));
      BusOfLocation(Normalize(path, PATH_MAX).value);
      ClassifyMatchesExtract(path, FdRecord(Other, -1, CopyTruncated(path, PATH_MAX), ""));
    }
  }

  /** The directory of a bus that fits its field, or the information file in it. */
  predicate IsPlaceOfBus(loc: seq<string>, bus: string) {
    |bus| < 32 && (loc == ["proc", "driver", "nvidia", "gpus", bus]
                   || loc == ["proc", "driver", "nvidia", "gpus", bus, "information"])
  }

  lemma PlaceOfBusIff(loc: seq<string>)
    ensures IsBusLocation(loc) ==> IsPlaceOfBus(loc, loc[4])
    ensures forall bus :: IsPlaceOfBus(loc, bus) ==> IsBusLocation(loc) && loc[4] == bus
  {
    if IsBusLocation(loc) {
      assert loc == loc[..4] + loc[4..];
    }
  }

  lemma AllowsBusIff(allowed: AllowedGpus, bus: string)
    ensures AllowsBus(allowed, bus) <==>
            allowed.valid && bus != "" && exists gpu :: gpu in allowed.gpus && gpu.busId == bus
  {
    if gpu :| gpu in allowed.gpus && gpu.busId == bus {
      var i :| 0 <= i < |allowed.gpus| && allowed.gpus[i] == gpu;
    }
  }

  /** The decision in full: what is denied names the directory or the information file of a bus
      that no GPU of a valid set has. */
  lemma DenyExact(allowed: AllowedGpus, path: string)
    ensures Decide(allowed, path) == Deny <==>
            && Normalize(path, 256).Some? && allowed.valid
            && exists bus :: IsPlaceOfBus(Location(path), bus) &&
                 forall gpu :: gpu in allowed.gpus ==> gpu.busId != bus
  {
    hide Normalize, Location, Decide, IsBusLocation, IsPlaceOfBus, AllowsBus, BASE_SEGMENTS;
    DecisionByLocation(allowed, path);
    PlaceOfBusIff(Location(path));
    if Normalize(path, PATH_MAX).Some? {
      LocationOfNormalized(path);
      if IsBusLocation(Location(path)) {
        BusIsFifth(Location(path));
        AllowsBusIff(allowed, Location(path)[4]);
      } else {
        BaseIsNoBus();
      }
    }
  }

  lemma BusIsFifth(loc: seq<string>)
    requires IsBusLocation(loc)
    ensures |loc| > 4 && loc != BASE_SEGMENTS
    ensures AllPlain(loc) ==> loc[4] != ""
  {
  }

  lemma BaseIsNoBus()
    ensures !IsBusLocation(BASE_SEGMENTS)
  {
  }
}
