/** A container's memory from end to end: from the text of mountinfo, of the cgroup list and of
    the two control files, to the detected limit, the snapshots and the virtual /proc/meminfo. */
module ContainerMemory {
  import opened Text
  import opened Numbers
  import opened CgroupPaths
  import opened Cgroup
  import opened MemoryView
  import H = Hooks
  import MI = Meminfo
  import VM = VirtualMeminfo

  // ----- files of lines

  /** The text of a file: each line with its newline. */
  function FileOf(lines: seq<string>): string {
    if lines == [] then "" else lines[0] + "\n" + FileOf(lines[1..])
  }

  /** A line without control characters that fits the line buffer with its newline. */
  predicate IsTextLine(line: string) {
    |line| < 1023 && '\n' !in line && '\r' !in line && '\0' !in line
  }

  predicate AllTextLines(lines: seq<string>) {
    forall i :: 0 <= i < |lines| ==> IsTextLine(lines[i])
  }

  lemma LineRead(line: string, rest: string)
    requires IsTextLine(line)
    ensures var text := line + "\n" + rest;
            Chunks(text, LINE_SIZE) == [line + "\n"] + Chunks(rest, LINE_SIZE) && LineOf(line + "\n") == line
  {
    hide Chunks;
    var text, chunk := line + "\n" + rest, line + "\n";
    assert text[..|line|] == line;
    FindUnique(text, '\n', |line|);
    assert text[..|chunk|] == chunk && text[|chunk|..] == rest;
    FirstChunkIs(text, |chunk|);
    LineEndDropped(line, "\n");
  }

  /** However a line ends, what counts is what stands in front of the end. */
  lemma LineEndDropped(line: string, end: string)
    requires IsTextLine(line) && (end == "" || end == "\n" || end == "\r\n" || end == "\r")
    ensures LineOf(line + end) == line
  {
    var chunk := line + end;
    FindUnique(chunk, '\0', |chunk|);
    assert chunk[..|chunk|] == chunk && chunk[..|line|] == line;
    if end == "\n" {
      FindUnique(chunk, '\r', |chunk|);
      FindUnique(chunk, '\n', |line|);
    } else if end == "" {
      FindUnique(chunk, '\r', |line|);
      FindUnique(chunk, '\n', |line|);
    } else {
      FindUnique(chunk, '\r', |line|);
    }
  }

  lemma FirstChunkIs(text: string, n: nat)
    requires text != "" && n == FgetsLength(text, LINE_SIZE)
    ensures Chunks(text, LINE_SIZE) == [text[..n]] + Chunks(text[n..], LINE_SIZE)
  {
  }

  /** Reading a file of such lines gives them back. */
  lemma {:induction false} FileLines(lines: seq<string>)
    requires AllTextLines(lines)
    ensures Lines(Chunks(FileOf(lines), LINE_SIZE)) == lines
  {
    hide Chunks, LineOf;
    if lines == [] {
      NoChunks("");
    } else {
      LineRead(lines[0], FileOf(lines[1..]));
      FileLines(lines[1..]);
      LinesCons(lines[0] + "\n", Chunks(FileOf(lines[1..]), LINE_SIZE));
    }
  }

  // ----- mountinfo

  /** The fields of proc_pid_mountinfo(5). */
  datatype MountLine = MountLine(
    id: string, parent: string, device: string, root: string, point: string, options: string,
    optional: seq<string>, fstype: string, source: string, superOptions: string)

  function MountText(m: MountLine): string {
    Words([m.id, m.parent, m.device, m.root, m.point, m.options] + m.optional
          + ["-", m.fstype, m.source, m.superOptions])
  }

  predicate IsField(field: string) {
    field != "" && field != "-" && ' ' !in field
  }

  predicate Documented(m: MountLine) {
    && IsField(m.id) && IsField(m.parent) && IsField(m.device) && IsField(m.root) && IsField(m.point)
    && IsField(m.options) && IsField(m.fstype) && IsField(m.source) && IsField(m.superOptions)
    && forall i :: 0 <= i < |m.optional| ==> IsField(m.optional[i])
  }

  function MountTexts(ms: seq<MountLine>): (texts: seq<string>)
    ensures |texts| == |ms| && forall i :: 0 <= i < |ms| ==> texts[i] == MountText(ms[i])
  {
    seq(|ms|, i requires 0 <= i < |ms| => MountText(ms[i]))
  }

  predicate AllDocumented(ms: seq<MountLine>) {
    forall i :: 0 <= i < |ms| ==> Documented(ms[i])
  }

  lemma MountTextReads(m: MountLine)
    requires Documented(m)
    ensures ParseFields(Tokens(MountText(m), ' ')) ==
            MountFields(Some(m.root), Some(m.point), Some(m.options), Some(m.fstype), Some(m.superOptions))
  {
    hide Words, ParseFields, Tokens;
    MountLineRoundTrip([m.id, m.parent, m.device, m.root, m.point, m.options], m.optional,
                       m.fstype, m.source, m.superOptions);
  }

  /** The line mounts the unified hierarchy (version 2), or one with the memory controller
      (version 1), at a place that fits the 512-byte fields. */
  predicate Mounts(version: int, m: MountLine) {
    && |m.root| < 512 && |m.point| < 512
    && if version == 2 then m.fstype == "cgroup2"
       else m.fstype == "cgroup" && ("memory" in Fields(m.options, ',') || "memory" in Fields(m.superOptions, ','))
  }

  /** The first line that does. */
  predicate FirstMount(version: int, ms: seq<MountLine>, k: nat) {
    k < |ms| && Mounts(version, ms[k]) && forall i :: 0 <= i < k ==> !Mounts(version, ms[i])
  }

  predicate NoMount(version: int, ms: seq<MountLine>) {
    forall i :: 0 <= i < |ms| ==> !Mounts(version, ms[i])
  }

  lemma OneMountLine(mounts: Cgroup.Mounts, m: MountLine)
    requires Documented(m)
    ensures AddMount(mounts, ParseFields(Tokens(MountText(m), ' '))) ==
            var place := Some(Mount(m.root, m.point));
            Cgroup.Mounts(if mounts.v2 == None && Mounts(2, m) then place else mounts.v2,
                          if mounts.v1Memory == None && Mounts(1, m) then place else mounts.v1Memory)
  {
    hide Fields, Tokens, ParseFields;
    MountTextReads(m);
  }

  lemma {:induction false} MountsFrom(mounts: Cgroup.Mounts, ms: seq<MountLine>, two: nat, one: nat)
    requires AllDocumented(ms)
    ensures var r := MountsOf(mounts, MountTexts(ms));
            && (mounts.v2.Some? || NoMount(2, ms) ==> r.v2 == mounts.v2)
            && (mounts.v2 == None && FirstMount(2, ms, two) ==> r.v2 == Some(Mount(ms[two].root, ms[two].point)))
            && (mounts.v1Memory.Some? || NoMount(1, ms) ==> r.v1Memory == mounts.v1Memory)
            && (mounts.v1Memory == None && FirstMount(1, ms, one) ==>
                  r.v1Memory == Some(Mount(ms[one].root, ms[one].point)))
    decreases |ms|
  {
    hide Mounts, Documented, AddMount, ParseFields, Tokens, MountText;
    if ms != [] {
      OneMountLine(mounts, ms[0]);
      var next := AddMount(mounts, ParseFields(Tokens(MountText(ms[0]), ' ')));
      var rest := ms[1..];
      assert MountTexts(ms)[1..] == MountTexts(rest);
      MountsFrom(next, rest, if two > 0 then two - 1 else 0, if one > 0 then one - 1 else 0);
    }
  }

  /** From the text of mountinfo: of each kind the first usable mount is taken, with its root and
      its mount point, and none if there is none. */
  lemma MountsOfText(files: FileSystem, ms: seq<MountLine>, two: nat, one: nat)
    requires "/proc/self/mountinfo" in files && files["/proc/self/mountinfo"] == FileOf(MountTexts(ms))
    requires AllDocumented(ms) && AllTextLines(MountTexts(ms))
    ensures var r := DetectMounts(files);
            && (NoMount(2, ms) ==> r.v2 == None) && (NoMount(1, ms) ==> r.v1Memory == None)
            && (FirstMount(2, ms, two) ==> r.v2 == Some(Mount(ms[two].root, ms[two].point)))
            && (FirstMount(1, ms, one) ==> r.v1Memory == Some(Mount(ms[one].root, ms[one].point)))
  {
    hide Lines, Chunks, MountsOf, FileOf, FirstMount, NoMount, AllDocumented;
    FileLines(MountTexts(ms));
    MountsFrom(NO_MOUNTS, ms, two, one);
  }

  // ----- cgroup lines

  /** The fields of a line of cgroups(7). */
  datatype GroupLine = GroupLine(hierarchy: string, controllers: string, path: string)

  function GroupText(g: GroupLine): string {
    g.hierarchy + ":" + g.controllers + ":" + g.path
  }

  function GroupTexts(gs: seq<GroupLine>): (texts: seq<string>)
    ensures |texts| == |gs| && forall i :: 0 <= i < |gs| ==> texts[i] == GroupText(gs[i])
  {
    seq(|gs|, i requires 0 <= i < |gs| => GroupText(gs[i]))
  }

  predicate IsGroupLine(g: GroupLine) {
    ':' !in g.hierarchy && ':' !in g.controllers
  }

  lemma GroupTextReads(g: GroupLine)
    requires IsGroupLine(g)
    ensures ParseCgroupLine(GroupText(g)) ==
            Some(CgroupLine(g.hierarchy, g.controllers, if g.path == "" then "/" else g.path))
  {
    var line := GroupText(g);
    assert line[..|g.hierarchy|] == g.hierarchy;
    FindUnique(line, ':', |g.hierarchy|);
    var rest := line[|g.hierarchy|+1..];
    assert rest == g.controllers + ":" + g.path;
    assert rest[..|g.controllers|] == g.controllers;
    FindUnique(rest, ':', |g.controllers|);
    assert rest[|g.controllers|+1..] == g.path;
  }

  /** The line of the unified hierarchy, or one of a hierarchy with the memory controller. */
  predicate IsMember(version: int, g: GroupLine) {
    if version == 2 then g.hierarchy == "0" && g.controllers == "" else "memory" in Fields(g.controllers, ',')
  }

  function LimitFile(version: int): string {
    if version == 2 then "memory.max" else "memory.limit_in_bytes"
  }

  function UsageFile(version: int): string {
    if version == 2 then "memory.current" else "memory.usage_in_bytes"
  }

  predicate NoFileNamed(files: FileSystem, name: string) {
    forall path :: path in files ==> !(|path| > |name| && path[|path|-|name|-1..] == "/" + name)
  }

  /** What the control files of a directory say. */
  predicate ControlFiles(files: FileSystem, version: int, dir: string, limitText: string, usage: nat) {
    var limitPath, usagePath := dir + "/" + LimitFile(version), dir + "/" + UsageFile(version);
    && |limitPath| < 512 && |usagePath| < 512 && usage <= U64_MAX
    && limitPath in files && files[limitPath] == limitText
    && usagePath in files && files[usagePath] == Print(usage) + "\n"
  }

  lemma ControlFilesRead(files: FileSystem, version: int, dir: string, limitText: string, usage: nat, limit: nat)
    requires ControlFiles(files, version, dir, limitText, usage)
    ensures ReadCounter(files, dir + "/" + UsageFile(version)) == Some(usage)
    ensures limitText == Print(limit) + "\n" && 0 < limit < 0x7fff_ffff_ffff_f000 ==>
              ReadLimit(files, dir + "/" + LimitFile(version)) == Some(limit)
    ensures Unlimited(limitText, limit) ==> ReadLimit(files, dir + "/" + LimitFile(version)) == None
  {
    hide ReadCounter, ReadLimit, Print;
    PrintedFileReads(files, dir + "/" + UsageFile(version), usage);
    if limitText == Print(limit) + "\n" && limit <= U64_MAX {
      PrintedFileReads(files, dir + "/" + LimitFile(version), limit);
    }
    if limitText == "max\n" {
      MaxIsNoLimit(files, dir + "/" + LimitFile(version));
    }
  }

  /** How the kernel writes that there is no limit; zero counts as none, too. */
  predicate Unlimited(limitText: string, printed: nat) {
    || limitText == "max\n"
    || (limitText == Print(printed) + "\n" && (printed == 0 || 0x7fff_ffff_ffff_f000 <= printed <= U64_MAX))
  }

  lemma MaxIsNoLimit(files: FileSystem, path: string)
    requires path in files && files[path] == "max\n"
    ensures ReadLimit(files, path) == None
  {
    var text := "max\n";
    assert text[..3] == "max";
    FindUnique(text, '\n', 3);
    assert text[..4] == text;
    FindUnique(text, '\0', 4);
    TakeWordOf("max", "\n");
    assert "max" + "\n" == text;
    hide Find, TakeWord;
    assert TrimToken(text) == "max";
  }

  /** What the line of the container's own cgroup offers, file names and all. */
  lemma OwnCandidate(files: FileSystem, mounts: Cgroup.Mounts, version: int, root: string, point: string,
                     g: GroupLine, below: string, limitText: string, usage: nat, limit: nat)
    requires version == 1 || version == 2
    requires (if version == 2 then mounts.v2 else mounts.v1Memory) == Some(Mount(root, point))
    requires IsGroupLine(g) && IsMember(version, g)
    requires Printed(root) && Printed(point) && point != "/" && IsBelow(below) && LeadsBelow(root, g.path, below)
    requires ControlFiles(files, version, point + below, limitText, usage)
    ensures limitText == Print(limit) + "\n" && 0 < limit < 0x7fff_ffff_ffff_f000 ==>
              Candidate(files, mounts, GroupText(g)) ==
              Some(Memory(version, limit, usage,
                          point + below + "/" + LimitFile(version), point + below + "/" + UsageFile(version)))
    ensures Unlimited(limitText, limit) ==> Candidate(files, mounts, GroupText(g)) == None
  {
    hide CgroupPath, ReadLimit, ReadCounter, ParseCgroupLine, Print, Fields;
    GroupTextReads(g);
    CgroupPathText(point, root, g.path, below, LimitFile(version), FIELD_SIZE);
    CgroupPathText(point, root, g.path, below, UsageFile(version), FIELD_SIZE);
    ControlFilesRead(files, version, point + below, limitText, usage, limit);
    FieldsOfWord("", ',');
  }

  /** A line that is no member of a mounted hierarchy offers nothing, nor does one whose limit
      file is nowhere. */
  lemma OtherCandidate(files: FileSystem, mounts: Cgroup.Mounts, g: GroupLine)
    requires IsGroupLine(g)
    requires IsMember(2, g) ==> mounts.v2 == None || NoFileNamed(files, "memory.max")
    requires IsMember(1, g) ==> mounts.v1Memory == None
    ensures Candidate(files, mounts, GroupText(g)) == None
  {
    hide CgroupPath, ReadCounter, ParseCgroupLine, Fields, NoFileNamed;
    GroupTextReads(g);
    if IsMember(2, g) && mounts.v2.Some? {
      NoLimitFile(files, mounts.v2.value, if g.path == "" then "/" else g.path);
    }
  }

  lemma NoLimitFile(files: FileSystem, mount: Mount, rel: string)
    requires NoFileNamed(files, "memory.max")
    ensures var path := CgroupPath(mount.point, mount.root, rel, "memory.max", FIELD_SIZE);
            path.Some? ==> ReadLimit(files, path.value) == None
  {
    hide CgroupPath;
    CgroupPathKeepsPoint(mount.point, mount.root, rel, "memory.max", FIELD_SIZE);
  }

  /** One line alone decides, if no other offers anything. */
  lemma OnlyCandidate(files: FileSystem, mounts: Cgroup.Mounts, lines: seq<string>, c: nat)
    requires c < |lines|
    requires forall i :: 0 <= i < |lines| && i != c ==> Candidate(files, mounts, lines[i]) == None
    ensures Best(files, mounts, None, lines) == Candidate(files, mounts, lines[c])
  {
    hide Candidate, Best;
    BestFrom(files, mounts, None, lines);
    var r := Best(files, mounts, None, lines);
    if r.Some? {
      var k: nat :| FirstLeast(files, mounts, lines, k, r.value);
      assert k == c;
    }
  }

  // ----- containers

  /** A container whose memory is limited by one cgroup, as its files tell it: line `m` of
      mountinfo is the first that mounts the hierarchy, line `c` of the cgroup list is the only
      member of it, and the control files lie below the mount point where the cgroup's path lies
      below the mount's root. The other version of the hierarchy is not mounted; or, beside
      version 1, it is, but has no memory.max anywhere. */
  ghost predicate Container(files: FileSystem, version: int, ms: seq<MountLine>, m: nat, gs: seq<GroupLine>, c: nat,
                            below: string, limitText: string, usage: nat)
  {
    && (version == 1 || version == 2)
    && "/proc/self/mountinfo" in files && files["/proc/self/mountinfo"] == FileOf(MountTexts(ms))
    && "/proc/self/cgroup" in files && files["/proc/self/cgroup"] == FileOf(GroupTexts(gs))
    && AllDocumented(ms) && AllTextLines(MountTexts(ms)) && AllTextLines(GroupTexts(gs))
    && FirstMount(version, ms, m) && Printed(ms[m].root) && Printed(ms[m].point) && ms[m].point != "/"
    && (NoMount(3 - version, ms) || (version == 1 && NoFileNamed(files, "memory.max")))
    && c < |gs| && (forall i :: 0 <= i < |gs| ==> IsGroupLine(gs[i]) && (IsMember(version, gs[i]) <==> i == c))
    && IsBelow(below) && LeadsBelow(ms[m].root, gs[c].path, below)
    && ControlFiles(files, version, ms[m].point + below, limitText, usage)
  }

  lemma DetectedAtLine(files: FileSystem, version: int, ms: seq<MountLine>, m: nat, gs: seq<GroupLine>, c: nat,
                       below: string, limitText: string, usage: nat)
    requires Container(files, version, ms, m, gs, c, below, limitText, usage)
    ensures var mounts := DetectMounts(files);
            && (if version == 2 then mounts.v2 else mounts.v1Memory) == Some(Mount(ms[m].root, ms[m].point))
            && Detect(files) == Candidate(files, mounts, GroupText(gs[c]))
  {
    hide DetectMounts, Candidate, FirstMount, NoMount, Lines, Chunks, FileOf, IsMember, AllDocumented, NoFileNamed,
         AllTextLines, IsBelow, LeadsBelow, Printed, ControlFiles, Best;
    MountsOfText(files, ms, m, m);
    var mounts, lines := DetectMounts(files), GroupTexts(gs);
    forall i | 0 <= i < |gs| && i != c
      ensures Candidate(files, mounts, lines[i]) == None
    {
      OtherCandidate(files, mounts, gs[i]);
    }
    FileLines(lines);
    OnlyCandidate(files, mounts, lines, c);
  }

  /** From text to result, for both versions: the limit and the usage are the numbers printed in
      the two files, and the paths are theirs; the usage path is the one that is read again. */
  lemma LimitIsDetected(files: FileSystem, version: int, ms: seq<MountLine>, m: nat, gs: seq<GroupLine>, c: nat,
                        below: string, limit: nat, usage: nat)
    requires Container(files, version, ms, m, gs, c, below, Print(limit) + "\n", usage)
    requires 0 < limit < 0x7fff_ffff_ffff_f000
    ensures var dir := ms[m].point + below;
            Detect(files) ==
            Some(if version == 2
                 then Memory(2, limit, usage, dir + "/" + "memory.max", dir + "/" + "memory.current")
                 else Memory(1, limit, usage, dir + "/" + "memory.limit_in_bytes", dir + "/" + "memory.usage_in_bytes"))
  {
    hide Detect, DetectMounts, Candidate, NoMount, FileOf, IsMember, AllDocumented, NoFileNamed,
         AllTextLines, IsBelow, LeadsBelow, Printed, ControlFiles, Print;
    var limitText := Print(limit) + "\n";
    DetectedAtLine(files, version, ms, m, gs, c, below, limitText, usage);
    OwnCandidate(files, DetectMounts(files), version, ms[m].root, ms[m].point, gs[c], below, limitText, usage, limit);
  }

  /** And a container without a limit is not detected as limited. */
  lemma NoLimitIsDetected(files: FileSystem, version: int, ms: seq<MountLine>, m: nat, gs: seq<GroupLine>, c: nat,
                          below: string, limitText: string, usage: nat, printed: nat)
    requires Container(files, version, ms, m, gs, c, below, limitText, usage) && Unlimited(limitText, printed)
    ensures Detect(files) == None
  {
    hide Detect, DetectMounts, Candidate, NoMount, FileOf, IsMember, AllDocumented, NoFileNamed,
         AllTextLines, IsBelow, LeadsBelow, Printed, ControlFiles, Unlimited;
    DetectedAtLine(files, version, ms, m, gs, c, below, limitText, usage);
    OwnCandidate(files, DetectMounts(files), version, ms[m].root, ms[m].point, gs[c], below, limitText, usage, printed);
  }

  // ----- what a program is told

  /** Over every sequence of calls of a process in the container, whatever else changes in the
      files after the first call: whenever the usage file holds a printed number, the snapshot is
      the limit found at the first call, and what that usage leaves of it. */
  lemma ContainerSnapshots(
    world: seq<FileSystem>, version: int, ms: seq<MountLine>, m: nat, gs: seq<GroupLine>, c: nat,
    below: string, limit: nat, first: nat, i: nat, usage: nat)
    requires i < |world| && 0 < limit < 0x7fff_ffff_ffff_f000 && usage <= U64_MAX
    requires Container(world[0], version, ms, m, gs, c, below, Print(limit) + "\n", first)
    requires var path := ms[m].point + below + "/" + UsageFile(version);
             path in world[i] && world[i][path] == Print(usage) + "\n"
    ensures var snapshot := Snapshots(None, world)[i];
            && snapshot.Some? && snapshot.value.total == limit
            && (usage < limit ==> snapshot.value.available + usage == limit)
            && (usage >= limit ==> snapshot.value.available == 0)
  {
    hide Container, Detect, ReadCounter, Print;
    LimitIsDetected(world[0], version, ms, m, gs, c, below, limit, first);
    var known := Detect(world[0]);
    SameFromDetected(world);
    PrintedUsageIsReported(known, world, i, usage);
  }

  /** A process that has detected nothing yet behaves like one that knows what it will detect. */
  lemma SameFromDetected(world: seq<FileSystem>)
    requires world != [] && Detect(world[0]).Some?
    ensures Snapshots(None, world) == Snapshots(Detect(world[0]), world)
  {
    hide Detect, ReadCounter;
  }

  /** The first open of /proc/meminfo in the container: whatever the process does afterwards, the
      reads deliver a text whose MemTotal is the limit in the limit file, and whose MemFree and
      MemAvailable are what the usage in the usage file leaves of it, in kilobytes. */
  lemma ContainerMeminfo(
    cfg: H.Config, w: H.World, call: H.Call, calls: seq<H.Call>, shown: string,
    version: int, ms: seq<MountLine>, m: nat, gs: seq<GroupLine>, c: nat, below: string, limit: nat, usage: nat)
    requires H.Safe(cfg, w) && H.Legal(w, call) && VM.OpensMeminfo(cfg, w, call) && w.memory == None
    requires VM.CanBuild(w, call.files)
    requires Container(call.files, version, ms, m, gs, c, below, Print(limit) + "\n", usage)
    requires 0 < limit < 0x7fff_ffff_ffff_f000
    requires H.LegalRun(cfg, H.Step(cfg, w, call), calls) && VM.AllLeaveAlone(calls, call.rc)
    requires shown == MI.Rewritten(Snapshot(limit, if usage < limit then limit - usage else 0), call.files[H.MEMINFO])
    requires '\0' !in call.files[H.MEMINFO]
    ensures var want := VM.BytesWanted(call.rc, calls);
            VM.BytesRead(cfg, H.Step(cfg, w, call), call.rc, calls) == shown[..if |shown| < want then |shown| else want]
    ensures VM.ShowsNumbers(Snapshot(limit, if usage < limit then limit - usage else 0), call.files[H.MEMINFO], shown)
  {
    hide Container, Detect, ReadCounter, Print, MI.Rewritten, H.Step, H.Safe, H.Legal, H.LegalRun, Next, Splits,
         VM.ShowsNumbers, VM.AllLeaveAlone, VM.BytesRead, VM.BytesWanted;
    FirstSnapshot(call.files, version, ms, m, gs, c, below, limit, usage);
    VM.MeminfoEndToEnd(cfg, w, call, calls);
  }

  lemma FirstSnapshot(files: FileSystem, version: int, ms: seq<MountLine>, m: nat, gs: seq<GroupLine>, c: nat,
                      below: string, limit: nat, usage: nat)
    requires Container(files, version, ms, m, gs, c, below, Print(limit) + "\n", usage)
    requires 0 < limit < 0x7fff_ffff_ffff_f000
    ensures Next(None, files).1 == Some(Snapshot(limit, if usage < limit then limit - usage else 0))
  {
    hide Detect, Next, Print, ReadCounter, DetectMounts, FirstMount, NoMount, FileOf, IsMember, AllDocumented,
         NoFileNamed, AllTextLines, IsBelow, LeadsBelow, Printed;
    ContainerSnapshots([files], version, ms, m, gs, c, below, limit, usage, 0, usage);
    assert Snapshots(None, [files])[0] == Next(None, files).1;
  }

  // ----- an instance

  const POD_MOUNTS: seq<MountLine> :=
    [MountLine("24", "23", "0:22", "/", "/sys/fs/cgroup", "rw", ["shared:5"], "cgroup2", "cgroup2", "rw")]
  const POD_GROUPS: seq<GroupLine> := [GroupLine("0", "", "/pod")]

  function PodFiles(limit: nat, usage: nat): FileSystem {
    map[
      "/proc/self/mountinfo" := FileOf(MountTexts(POD_MOUNTS)),
      "/proc/self/cgroup" := FileOf(GroupTexts(POD_GROUPS)),
      "/sys/fs/cgroup/pod/memory.max" := Print(limit) + "\n",
      "/sys/fs/cgroup/pod/memory.current" := Print(usage) + "\n"]
  }

  predicate IsShortWord(w: string) {
    |w| <= 20 && forall i :: 0 <= i < |w| ==> w[i] > ' '
  }

  lemma {:induction false} WordsOfShort(ws: seq<string>)
    requires forall i :: 0 <= i < |ws| ==> IsShortWord(ws[i])
    ensures |Words(ws)| <= 21 * |ws| && '\n' !in Words(ws) && '\r' !in Words(ws) && '\0' !in Words(ws)
  {
    if |ws| > 1 {
      WordsOfShort(ws[1..]);
    }
  }

  lemma ShortMountText(m: MountLine)
    requires IsShortWord(m.id) && IsShortWord(m.parent) && IsShortWord(m.device) && IsShortWord(m.root)
    requires IsShortWord(m.point) && IsShortWord(m.options)
    requires IsShortWord(m.fstype) && IsShortWord(m.source) && IsShortWord(m.superOptions)
    requires |m.optional| <= 10 && forall i :: 0 <= i < |m.optional| ==> IsShortWord(m.optional[i])
    ensures IsTextLine(MountText(m))
  {
    hide IsShortWord, Words;
    assert IsShortWord("-") by {
      DashIsShort();
    }
    WordsOfShort([m.id, m.parent, m.device, m.root, m.point, m.options] + m.optional
                 + ["-", m.fstype, m.source, m.superOptions]);
  }

  lemma DashIsShort()
    ensures IsShortWord("-")
  {
  }

  lemma PodMountLine()
    ensures IsTextLine(MountText(POD_MOUNTS[0]))
  {
    hide IsTextLine;
    ShortMountText(POD_MOUNTS[0]);
  }

  lemma PodGroupLine()
    ensures IsTextLine(GroupText(POD_GROUPS[0]))
  {
    assert GroupText(POD_GROUPS[0]) == "0::/pod";
  }

  lemma PodLines()
    ensures AllTextLines(MountTexts(POD_MOUNTS)) && AllTextLines(GroupTexts(POD_GROUPS))
  {
    hide IsTextLine, MountText, GroupText;
    PodMountLine();
    PodGroupLine();
  }

  lemma PodMounts()
    ensures AllDocumented(POD_MOUNTS) && FirstMount(2, POD_MOUNTS, 0) && NoMount(1, POD_MOUNTS)
  {
    hide Fields;
  }

  /** Containers exist: here is one with the unified hierarchy, for every limit and usage. */
  lemma PodLimitIsDetected(limit: nat, usage: nat)
    requires 0 < limit < 0x7fff_ffff_ffff_f000 && usage <= U64_MAX
    ensures Container(PodFiles(limit, usage), 2, POD_MOUNTS, 0, POD_GROUPS, 0, "/pod", Print(limit) + "\n", usage)
    ensures Detect(PodFiles(limit, usage)) ==
            Some(Memory(2, limit, usage, "/sys/fs/cgroup/pod/memory.max", "/sys/fs/cgroup/pod/memory.current"))
  {
    hide Detect, Print, FileOf, AllDocumented, AllTextLines, FirstMount, NoMount;
    PodLines();
    PodMounts();
    var dir := "/sys/fs/cgroup" + "/pod";
    assert dir + "/" + "memory.max" == "/sys/fs/cgroup/pod/memory.max";
    assert dir + "/" + "memory.current" == "/sys/fs/cgroup/pod/memory.current";
    LimitIsDetected(PodFiles(limit, usage), 2, POD_MOUNTS, 0, POD_GROUPS, 0, "/pod", limit, usage);
  }
}
