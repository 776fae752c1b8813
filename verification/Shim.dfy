/** The hooks as they run: calls that update the tracker's list, the virtual file slots, the
    detected memory and the learned ids in place, each proved to take the step that `Hooks`
    reasons about. */
module Shim {
  import opened Text
  import opened PathNormalizer
  import opened GpuPaths
  import opened RelativePaths
  import opened Hooks
  import opened HookFilters
  import CG = Cgroup
  import DF = DirentFilter
  import FT = FdTracker
  import IO = IoctlFilter
  import L = Listing
  import MI = Meminfo
  import MV = MemoryView
  import VF = VirtualFiles

  lemma ClassifiedIsCString(path: string)
    requires CString(path)
    ensures CString(Classify(path).record.busId)
  {
    if Normalize(path, PATH_MAX).Some? {
      NormalizeIsCString(path, PATH_MAX);
    }
    hide Normalize, Find;
  }

  /** The argument of an ioctl, as the filter sees it: an array the driver has filled, with the
      fields around it. */
  datatype RmBuffer =
    | Cards(cards: array<IO.Card>)
    | Ids(rm: IO.Header, ids: array<IO.U32>)
    | Devices(rm: IO.Header, numDevices: IO.U32, devices: array<IO.Device>)
    | NoBuffer

  ghost function Footprint(b: RmBuffer): set<object> {
    match b
    case Cards(cards) => {cards}
    case Ids(_, ids) => {ids}
    case Devices(_, _, devices) => {devices}
    case NoBuffer => {}
  }

  /** The reply in a buffer, with the given number of devices. */
  ghost function ReplyIn(b: RmBuffer, numDevices: IO.U32): IO.Reply
    reads Footprint(b)
  {
    match b
    case Cards(cards) => IO.CardInfo(cards[..])
    case Ids(rm, ids) => IO.Attached(rm, ids[..])
    case Devices(rm, _, devices) => IO.Active(rm, numDevices, devices[..])
    case NoBuffer => IO.OtherReply
  }

  ghost function Filled(b: RmBuffer): IO.Reply
    reads Footprint(b)
  {
    ReplyIn(b, if b.Devices? then b.numDevices else 0)
  }

  class Process {
    const cfg: Config
    const tracker: FT.Tracker
    const table: VF.Table
    const view: MV.View
    const filter: IO.Filter
    /** The kernel's descriptor table and working directory: not the program's to read. */
    ghost var kernel: Kernel
    ghost var cwd: Place

    ghost predicate Valid()
      reads this, tracker, tracker.nodes, table, table.entries, view, filter, filter.ids
    {
      && tracker.Valid() && table.Valid() && filter.Valid()
      && MV.Finite(view.Known()) && RecordsAreCStrings(tracker.Contents())
    }

    lemma FilterIsValid()
      requires Valid()
      ensures filter.Valid()
    {
    }

    ghost function View(): World
      requires filter.Valid()
      reads this, tracker, table, table.entries, view, filter, filter.ids
    {
      World(kernel, tracker.Contents(), table.Contents(), cwd, view.Known(), filter.Known())
    }

    constructor (cfg: Config, ghost kernel: Kernel, ghost cwd: Place)
      ensures Valid() && fresh(tracker) && fresh(table.entries) && fresh(view) && fresh(filter) && fresh(filter.ids)
      ensures this.cfg == cfg && View() == World(kernel, map[], map[], cwd, None, [])
    {
      this.cfg, this.kernel, this.cwd := cfg, kernel, cwd;
      tracker := new FT.Tracker();
      table := new VF.Table();
      view := new MV.View();
      filter := new IO.Filter();
    }

    method GpuProcDenied(path: string) returns (denied: bool)
      requires CString(path)
      ensures denied == Denied(cfg, path)
    {
      if !cfg.gpuVideo || !cfg.filterReady || path == "" || path[0] != '/' {
        return false;
      }
      var decision := ProcPathAllowed(cfg.allowed, path);
      denied := decision == Deny;
    }

    /** The rewritten /proc/meminfo, in a buffer of the size the hooks use. */
    method BuildMeminfo(files: CG.FileSystem, buf: array<char>) returns (ok: bool, used: nat)
      requires MV.Finite(view.Known()) && buf.Length == MEMINFO_SIZE
      modifies view, buf
      ensures MV.Finite(view.Known()) && view.Known() == Built(old(view.Known()), files).0
      ensures ok <==> Built(old(view.Known()), files).1.Some?
      ensures ok ==> used <= buf.Length && buf[..used] == Built(old(view.Known()), files).1.value
    {
      hide MV.Next, MI.Rewritten;
      MV.NextKeepsLimit(view.Known(), files);
      var snapshot := view.TakeSnapshot(files);
      if snapshot == None || MEMINFO !in files {
        return false, 0;
      }
      ok, used := MI.Build(snapshot.value, files[MEMINFO], buf);
    }

    method MaybeAttachMeminfo(fd: int, path: string, readable: bool, files: CG.FileSystem, alloc: bool)
      requires Valid()
      modifies table.entries, view
      ensures Valid() && View() == Attach(cfg, old(View()), path, readable, files, fd, alloc)
    {
      hide Built, FT.Tracker.Valid, VF.Table.Valid, FT.MapOf, VF.FilesOf;
      if fd < 0 || path != MEMINFO || !cfg.cgroupMemory || !readable {
        return;
      }
      var meminfo := new char[MEMINFO_SIZE];
      var ok, len := BuildMeminfo(files, meminfo);
      if ok {
        var stored := table.Put(fd, meminfo[..len], alloc);
      }
    }

    method TraceAndTrackOpen(path: string, fd: int, alloc: bool)
      requires Valid() && CString(path)
      modifies tracker, tracker.nodes
      ensures Valid() && FT.NodesGrow(old(tracker.nodes), tracker.nodes)
      ensures View() == old(View()).(tracker := Track(cfg, old(View()).tracker, path, fd, alloc))
    {
      hide Classify, FT.Tracker.Valid, VF.Table.Valid, FT.MapOf, VF.FilesOf;
      if !cfg.gpuVideo {
        return;
      }
      var c := ClassifyPath(path);
      ClassifiedIsCString(path);
      if fd >= 0 {
        if c.found {
          tracker.Set(fd, c.record, alloc);
        } else {
          tracker.Remove(fd);
        }
      }
    }

    /** open and open64; opendir is the same without the meminfo branch. */
    method Open(path: string, isDir: bool, readable: bool, files: CG.FileSystem, rc: int, alloc: bool)
      returns (fd: int)
      requires Valid() && CString(path)
      modifies this, tracker, tracker.nodes, table.entries, view
      ensures Valid() && FT.NodesGrow(old(tracker.nodes), tracker.nodes)
      ensures View() == Step(cfg, old(View()), Call.Open(path, isDir, readable, files, rc, alloc))
      ensures fd == if Denied(cfg, path) then -1 else rc
    {
      hide Classify, Denied, EffectivePath, OpenedAt, Track, Attach, Target;
      hide FT.Tracker.Valid, VF.Table.Valid, FT.MapOf, VF.FilesOf;
      var denied := GpuProcDenied(path);
      if denied {
        return -1;
      }
      kernel := Opened(kernel, rc, OpenFile(path, Target(View(), AT_FDCWD, path), isDir, Descriptor));
      AttachBeforeTrack(cfg, View(), path, readable, files, rc, alloc, Track(cfg, View().tracker, path, rc, alloc));
      MaybeAttachMeminfo(rc, path, readable, files, alloc);
      TraceAndTrackOpen(path, rc, alloc);
      fd := rc;
    }

    method OpenDir(path: string, rc: int, alloc: bool) returns (fd: int)
      requires Valid() && CString(path)
      modifies this, tracker, tracker.nodes
      ensures Valid() && FT.NodesGrow(old(tracker.nodes), tracker.nodes)
      ensures View() == Step(cfg, old(View()), Call.OpenDir(path, rc, alloc))
      ensures fd == if Denied(cfg, path) then -1 else rc
    {
      hide Classify, Denied, EffectivePath, OpenedAt, Track, Attach, Target;
      hide FT.Tracker.Valid, VF.Table.Valid, FT.MapOf, VF.FilesOf;
      var denied := GpuProcDenied(path);
      if denied {
        return -1;
      }
      kernel := Opened(kernel, rc, OpenFile(path, Target(View(), AT_FDCWD, path), true, Descriptor));
      TraceAndTrackOpen(path, rc, alloc);
      fd := rc;
    }

    /** -1 if the name is refused, or denied once its effective path is known. */
    method OpenAt(dirFd: int, path: string, isDir: bool, readable: bool, files: CG.FileSystem, rc: int, alloc: bool)
      returns (fd: int)
      requires Valid() && CString(path)
      modifies this, tracker, tracker.nodes, table.entries, view
      ensures Valid() && FT.NodesGrow(old(tracker.nodes), tracker.nodes)
      ensures View() == Step(cfg, old(View()), Call.OpenAt(dirFd, path, isDir, readable, files, rc, alloc))
      ensures var e := EffectivePath(Lookup(old(View()).tracker, dirFd), path);
              fd == if e.Refused? || Denied(cfg, e.path) then -1 else rc
    {
      hide Classify, Denied, EffectivePath, OpenedAt, Track, Attach, Target;
      hide FT.Tracker.Valid, VF.Table.Valid, FT.MapOf, VF.FilesOf;
      var record := tracker.Get(dirFd);
      var effective := EffectiveOpenatPath(record, path);
      EffectiveShape(record, path);
      if effective.Refused? {
        return -1;
      }
      var denied := GpuProcDenied(effective.path);
      if denied {
        return -1;
      }
      RecordOpenAt(dirFd, path, effective.path, isDir, readable, files, rc, alloc);
      fd := rc;
    }

    /** The part of openat that follows the kernel's answer. */
    method RecordOpenAt(dirFd: int, path: string, effective: string, isDir: bool, readable: bool,
                        files: CG.FileSystem, rc: int, alloc: bool)
      requires Valid() && CString(effective)
      modifies this, tracker, tracker.nodes, table.entries, view
      ensures Valid() && FT.NodesGrow(old(tracker.nodes), tracker.nodes)
      ensures View() ==
              OpenedAt(cfg, old(View()), Call.OpenAt(dirFd, path, isDir, readable, files, rc, alloc), effective)
    {
      hide Classify, Denied, EffectivePath, Track, Attach, Target;
      hide FT.Tracker.Valid, VF.Table.Valid, FT.MapOf, VF.FilesOf;
      kernel := Opened(kernel, rc, OpenFile(effective, Target(View(), dirFd, path), isDir, Descriptor));
      ghost var tracked := Track(cfg, View().tracker, effective, rc, alloc);
      AttachBeforeTrack(cfg, View(), path, readable, files, rc, alloc, tracked);
      if dirFd == AT_FDCWD {
        MaybeAttachMeminfo(rc, path, readable, files, alloc);
      }
      if (effective != "" && effective[0] == '/') || dirFd == AT_FDCWD {
        TraceAndTrackOpen(effective, rc, alloc);
      }
    }

    /** fopen and fopen64: no decision and no tracking, but a virtualized /proc/meminfo comes from
        a file in memory. `rc` is the descriptor of the stream. */
    method FOpen(path: string, isDir: bool, readOnly: bool, memfd: bool, files: CG.FileSystem, rc: int)
      returns (fd: int)
      requires Valid() && CString(path)
      modifies this`kernel, view
      ensures Valid() && fd == rc
      ensures View() == Step(cfg, old(View()), Call.FOpen(path, isDir, readOnly, memfd, files, rc))
    {
      hide Built, Target, FT.Tracker.Valid, VF.Table.Valid, FT.MapOf, VF.FilesOf;
      fd := rc;
      ghost var file := OpenFile(path, Target(View(), AT_FDCWD, path), isDir, Stream);
      if readOnly && path == MEMINFO && cfg.cgroupMemory {
        var meminfo := new char[MEMINFO_SIZE];
        var ok, len := BuildMeminfo(files, meminfo);
        if ok && memfd {
          kernel := Opened(kernel, rc, OpenFile("", [], false, MemoryStream(meminfo[..len])));
          return;
        }
      }
      kernel := Opened(kernel, rc, file);
    }

    /** fclose goes straight to libc, which frees the descriptor of the stream. */
    method FClose(fd: int)
      requires Valid()
      modifies this`kernel
      ensures Valid() && View() == Step(cfg, old(View()), Call.FClose(fd))
    {
      hide FT.Tracker.Valid, VF.Table.Valid, FT.MapOf, VF.FilesOf;
      kernel := kernel - {fd};
    }

    /** Both tables forget the descriptor before the kernel frees it. */
    method Close(fd: int)
      requires Valid()
      modifies this, tracker, tracker.nodes, table.entries
      ensures Valid() && FT.NodesGrow(old(tracker.nodes), tracker.nodes)
      ensures View() == Step(cfg, old(View()), Call.Close(fd))
    {
      hide FT.Tracker.Valid, VF.Table.Valid, FT.MapOf, VF.FilesOf;
      table.Remove(fd);
      tracker.Remove(fd);
      kernel := kernel - {fd};
    }

    /** The kernel frees the descriptor first, and only the tracker is told. */
    method CloseDir(fd: int, closed: bool)
      requires Valid()
      modifies this, tracker, tracker.nodes
      ensures Valid() && FT.NodesGrow(old(tracker.nodes), tracker.nodes)
      ensures View() == Step(cfg, old(View()), Call.CloseDir(fd, closed))
    {
      hide FT.Tracker.Valid, VF.Table.Valid, FT.MapOf, VF.FilesOf;
      if closed {
        kernel := kernel - {fd};
        tracker.Remove(fd);
      }
    }

    /** dup, and fcntl with F_DUPFD or F_DUPFD_CLOEXEC. */
    method Dup(oldFd: int, rc: int, alloc: bool)
      requires Valid() && (rc >= 0 ==> oldFd in kernel)
      modifies this, tracker, tracker.nodes
      ensures Valid() && FT.NodesGrow(old(tracker.nodes), tracker.nodes)
      ensures View() == Step(cfg, old(View()), Call.Dup(oldFd, rc, alloc))
    {
      hide FT.Tracker.Valid, VF.Table.Valid, FT.MapOf, VF.FilesOf;
      if rc >= 0 {
        kernel := kernel[rc := kernel[oldFd]];
        tracker.Copy(oldFd, rc, alloc);
      }
    }

    /** The kernel has put the source's open file behind `newFd`. */
    method Replace(oldFd: int, newFd: int, alloc: bool)
      requires Valid() && oldFd in kernel
      modifies this, tracker, tracker.nodes, table.entries
      ensures Valid() && FT.NodesGrow(old(tracker.nodes), tracker.nodes)
      ensures View() == Replaced(old(View()), oldFd, newFd, alloc)
    {
      hide FT.Tracker.Valid, VF.Table.Valid, FT.MapOf, VF.FilesOf;
      kernel := kernel[newFd := kernel[oldFd]];
      table.Remove(newFd);
      tracker.Copy(oldFd, newFd, alloc);
    }

    method Dup2(oldFd: int, newFd: int, rc: int, alloc: bool)
      requires Valid() && (rc >= 0 ==> oldFd in kernel)
      modifies this, tracker, tracker.nodes, table.entries
      ensures Valid() && FT.NodesGrow(old(tracker.nodes), tracker.nodes)
      ensures View() == Step(cfg, old(View()), Call.Dup2(oldFd, newFd, rc, alloc))
    {
      hide FT.Tracker.Valid, VF.Table.Valid, FT.MapOf, VF.FilesOf;
      if rc >= 0 && oldFd != newFd {
        Replace(oldFd, newFd, alloc);
      }
    }

    method Dup3(oldFd: int, newFd: int, rc: int, alloc: bool)
      requires Valid() && (rc >= 0 ==> oldFd in kernel)
      modifies this, tracker, tracker.nodes, table.entries
      ensures Valid() && FT.NodesGrow(old(tracker.nodes), tracker.nodes)
      ensures View() == Step(cfg, old(View()), Call.Dup3(oldFd, newFd, rc, alloc))
    {
      hide FT.Tracker.Valid, VF.Table.Valid, FT.MapOf, VF.FilesOf;
      if rc >= 0 {
        Replace(oldFd, newFd, alloc);
      }
    }

    /** Virtual contents are served first; otherwise the kernel would be asked. */
    method Read(fd: int, buf: array<char>, count: nat) returns (served: bool, out: nat)
      requires Valid() && count <= buf.Length
      modifies table.entries, buf
      ensures Valid() && View() == Step(cfg, old(View()), Call.Read(fd, count))
      ensures served <==> fd in old(View()).virtual
      ensures served ==> out <= buf.Length && buf[..out] == VF.Served(old(View()).virtual[fd], count)
    {
      hide FT.Tracker.Valid, VF.Table.Valid, FT.MapOf, VF.FilesOf;
      served, out := table.TakeRead(fd, buf, count);
    }

    /** `result` is what the kernel wrote into `buffer`. */
    method Getdents64(fd: int, buffer: array<Byte>, result: int) returns (shown: int)
      requires Valid() && result <= buffer.Length
      modifies buffer
      ensures result <= 0 || !cfg.gpuVideo || !cfg.filterReady || !cfg.allowed.valid
              || fd !in View().tracker || View().tracker[fd].kind != ProcGpusDir ==>
                shown == result && buffer[..] == old(buffer[..])
      ensures result > 0 && FiltersListing(cfg, View(), fd) && cfg.allowed.valid ==>
                var o := DF.Compact(cfg.allowed, old(buffer[..result]), 0, 0);
                shown == o.result && buffer[..result] == o.bytes && buffer[result..] == old(buffer[result..])
    {
      shown := result;
      var record := tracker.Get(fd);
      if result > 0 && cfg.gpuVideo && cfg.filterReady && record.Some? && record.value.kind == ProcGpusDir {
        shown := DF.FilterDirentBuffer(buffer, result, cfg.allowed);
      }
    }

    /** One readdir call on the stream of `fd`, whose entries from `pos` on are still to come: the
        next entry that is not hidden. No state changes. */
    method ReadDir(fd: int, entries: seq<string>, pos: nat) returns (entry: Option<string>, next: nat)
      requires Valid() && pos <= |entries|
      ensures pos <= next <= |entries| && (entry == None ==> next == |entries|)
      ensures entry.Some? ==> pos < next && entry.value == entries[next-1] && Lists(cfg, View(), fd, entry.value)
      ensures forall k :: pos <= k < next && (entry == None || k < next - 1) ==> !Lists(cfg, View(), fd, entries[k])
      ensures !FiltersListing(cfg, View(), fd) && pos < |entries| ==> entry == Some(entries[pos]) && next == pos + 1
      ensures Listing(cfg, View(), fd, entries[pos..]) ==
              (if entry.Some? then [entry.value] else []) + Listing(cfg, View(), fd, entries[next..])
    {
      hide Lists, L.ReaddirKeeps, L.Shown, FT.Tracker.Valid, VF.Table.Valid, VF.FilesOf;
      var record := tracker.Get(fd);
      entry, next := L.Readdir(cfg.gpuVideo && cfg.filterReady, record, cfg.allowed, entries, pos);
      forall name: string
        ensures L.ReaddirKeeps(cfg.gpuVideo && cfg.filterReady, record, cfg.allowed, name) <==>
                Lists(cfg, View(), fd, name)
        ensures !FiltersListing(cfg, View(), fd) ==> Lists(cfg, View(), fd, name)
      {
        ListsWhatReaddirKeeps(cfg, View(), fd, name);
      }
    }

    /** sysinfo, when the kernel's own answer is `answer`. */
    method SysInfo(files: CG.FileSystem, answer: MV.SysInfo, ulongMax: nat) returns (info: MV.SysInfo)
      requires Valid()
      modifies view
      ensures Valid() && View() == Step(cfg, old(View()), Call.AskMemory(files))
      ensures !cfg.cgroupMemory || MV.Next(old(View()).memory, files).1 == None ==> info == answer
      ensures cfg.cgroupMemory && MV.Next(old(View()).memory, files).1.Some? && ulongMax >= MV.UINT_MAX ==>
                var s := MV.Next(old(View()).memory, files).1.value;
                && 0 <= s.total - info.totalRam * info.memUnit < info.memUnit
                && 0 <= s.available - info.freeRam * info.memUnit < info.memUnit
    {
      hide MV.Next, MV.Fits, MV.Pow2, FT.Tracker.Valid, VF.Table.Valid, FT.MapOf, VF.FilesOf;
      info := answer;
      if cfg.cgroupMemory {
        MV.NextKeepsLimit(view.Known(), files);
        var snapshot := view.TakeSnapshot(files);
        if snapshot.Some? {
          MV.FiniteFits(snapshot.value, ulongMax);
          var encoded := MV.EncodeSysinfo(snapshot.value, ulongMax);
          if encoded.Some? {
            info := encoded.value;
          }
        }
      }
    }

    /** `b` holds the driver's reply; the number of active devices is handed on separately. */
    method Ioctl(fd: int, result: int, b: RmBuffer) returns (numDevices: IO.U32)
      requires Valid() && IO.Sized(Filled(b)) && filter.ids !in Footprint(b)
      modifies filter, filter.ids, Footprint(b)
      ensures Valid() && View() == Step(cfg, old(View()), Call.Ioctl(fd, result, old(Filled(b))))
      ensures ReplyIn(b, numDevices) == HandedOn(cfg, old(View()), fd, result, old(Filled(b)))
    {
      hide IO.Learned, IO.Rewritten, FT.Tracker.Valid, VF.Table.Valid, FT.MapOf, VF.FilesOf;
      numDevices := if b.Devices? then b.numDevices else 0;
      var record := tracker.Get(fd);
      if cfg.gpuVideo && cfg.gpuIoctl && record.Some? && record.value.kind == NvidiaCtl {
        numDevices := FilterReply(result, b);
      }
    }

    method FilterReply(result: int, b: RmBuffer) returns (numDevices: IO.U32)
      requires Valid() && IO.Sized(Filled(b)) && filter.ids !in Footprint(b)
      modifies filter, filter.ids, Footprint(b)
      ensures Valid()
      ensures View() == old(View()).(
                learned := IO.Learned(IoctlConfig(cfg), old(View()).learned, result, old(Filled(b))))
      ensures ReplyIn(b, numDevices) == IO.Rewritten(IoctlConfig(cfg), old(View()).learned, result, old(Filled(b)))
    {
      hide IO.Rewritten, IO.Learn, FT.Tracker.Valid, VF.Table.Valid, FT.MapOf, VF.FilesOf;
      numDevices := 0;
      match b {
        case Cards(cards) =>
          filter.CardInfoReply(IoctlConfig(cfg), result, cards);
        case Ids(rm, ids) =>
          filter.AttachedReply(IoctlConfig(cfg), result, rm, ids);
        case Devices(rm, n, devices) =>
          numDevices := filter.ActiveReply(IoctlConfig(cfg), result, rm, n, devices);
        case NoBuffer =>
          OtherIsUntouched(result);
      }
    }

    lemma OtherIsUntouched(result: int)
      requires filter.Valid()
      ensures IO.Rewritten(IoctlConfig(cfg), filter.Known(), result, IO.OtherReply) == IO.OtherReply
    {
    }

    /** A buffer with the given reply in it. */
    static method BufferOf(reply: IO.Reply) returns (b: RmBuffer)
      ensures fresh(Footprint(b)) && Filled(b) == reply
    {
      match reply
      case CardInfo(cards) =>
        var a := new IO.Card[|cards|](i requires 0 <= i < |cards| => cards[i]);
        assert a[..] == cards;
        b := Cards(a);
      case Attached(rm, ids) =>
        var a := new IO.U32[|ids|](i requires 0 <= i < |ids| => ids[i]);
        assert a[..] == ids;
        b := Ids(rm, a);
      case Active(rm, n, devices) =>
        var a := new IO.Device[|devices|](i requires 0 <= i < |devices| => devices[i]);
        assert a[..] == devices;
        b := Devices(rm, n, a);
      case OtherReply =>
        b := NoBuffer;
    }

    method Perform(call: Call)
      requires Valid() && Legal(View(), call) && CallIsCString(call)
      modifies this, tracker, tracker.nodes, table.entries, view, filter, filter.ids
      ensures Valid() && FT.NodesGrow(old(tracker.nodes), tracker.nodes)
      ensures View() == Step(cfg, old(View()), call)
    {
      hide Step, Valid, HandedOn;
      match call {
        case Open(path, isDir, readable, files, rc, alloc) =>
          var fd := Open(path, isDir, readable, files, rc, alloc);
        case OpenAt(dirFd, path, isDir, readable, files, rc, alloc) =>
          var fd := OpenAt(dirFd, path, isDir, readable, files, rc, alloc);
        case OpenDir(path, rc, alloc) =>
          var fd := OpenDir(path, rc, alloc);
        case FOpen(path, isDir, readOnly, memfd, files, rc) =>
          var fd := FOpen(path, isDir, readOnly, memfd, files, rc);
        case FClose(fd) =>
          FClose(fd);
        case Close(fd) =>
          Close(fd);
        case CloseDir(fd, closed) =>
          CloseDir(fd, closed);
        case Dup(oldFd, rc, alloc) =>
          Dup(oldFd, rc, alloc);
        case Dup2(oldFd, newFd, rc, alloc) =>
          Dup2(oldFd, newFd, rc, alloc);
        case Dup3(oldFd, newFd, rc, alloc) =>
          Dup3(oldFd, newFd, rc, alloc);
        case Read(fd, count) =>
          var buf := new char[count];
          var served, out := Read(fd, buf, count);
        case AskMemory(files) =>
          var info := SysInfo(files, MV.SysInfo(0, 0, 1), MV.UINT_MAX);
        case Ioctl(fd, result, reply) =>
          var b := BufferOf(reply);
          var n := Ioctl(fd, result, b);
        case ChangeDir(place) =>
          ChangeDir(place);
      }
    }

    /** Any legal sequence of calls leaves the list, the slots, the memory view and the learned
        ids in the world the run ends in, a safe one. */
    method PerformAll(calls: seq<Call>)
      requires Valid() && Initial(View()) && LegalRun(cfg, View(), calls)
      requires forall i :: 0 <= i < |calls| ==> CallIsCString(calls[i])
      modifies this, tracker, tracker.nodes, table.entries, view, filter, filter.ids
      ensures Valid() && View() == RunAll(cfg, old(View()), calls)
      ensures Safe(cfg, View())
    {
      hide Step, Valid, Safe, Legal, CallIsCString, Initial;
      FilterIsValid();
      InitialIsSafe(cfg, View());
      RunKeepsSafe(cfg, View(), calls);
      var i := 0;
      assert calls[0..] == calls;
      while i < |calls|
        invariant i <= |calls| && Valid() && filter.Valid()
        invariant FT.NodesGrow(old(tracker.nodes), tracker.nodes)
        invariant LegalRun(cfg, View(), calls[i..])
        invariant RunAll(cfg, View(), calls[i..]) == RunAll(cfg, old(View()), calls)
      {
        assert calls[i..][1..] == calls[i+1..];
        Perform(calls[i]);
        FilterIsValid();
        i := i + 1;
      }
    }

    /** chdir goes straight to the kernel. */
    method ChangeDir(place: Place)
      requires Valid()
      modifies this`cwd
      ensures Valid() && View() == Step(cfg, old(View()), Call.ChangeDir(place))
    {
      hide FT.Tracker.Valid, VF.Table.Valid, FT.MapOf, VF.FilesOf;
      cwd := place;
    }
  }

  ghost predicate CallIsCString(call: Call) {
    (call.Open? || call.OpenAt? || call.OpenDir? || call.FOpen?) ==> CString(call.path)
  }

  ghost predicate RecordsAreCStrings(m: FT.FdMap) {
    forall fd :: fd in m ==> CString(m[fd].busId)
  }
}
