/** The container's memory numbers: one detection, then refreshed usage, as sysinfo(2) and
    sysconf(3) report them. */
module MemoryView {
  import opened Text
  import opened Numbers
  import opened Cgroup

  datatype Snapshot = Snapshot(total: nat, available: nat)

  function Left(limit: nat, current: nat): nat {
    if current < limit then limit - current else 0
  }

  /** The snapshot splits `total` into what is used and what is available; nothing, not a wrapped
      difference, is available when usage is above it. */
  predicate Splits(s: Snapshot, total: nat, usage: nat) {
    && s.total == total
    && (usage <= total ==> s.available + usage == total)
    && (usage >= total ==> s.available == 0)
  }

  /** What one call makes of the memory detected so far and the readable files: the memory
      known afterwards, and the snapshot. */
  function Next(known: Option<Memory>, files: FileSystem): (Option<Memory>, Option<Snapshot>) {
    var mem := if known.Some? then known else Detect(files);
    if mem == None then (None, None)
    else
      var current := if mem.value.currentPath == "" then None else ReadCounter(files, mem.value.currentPath);
      if current == None then (mem, None)
      else
        var snapshot := Snapshot(mem.value.limit, Left(mem.value.limit, current.value));
        (Some(mem.value.(current := current.value)), Some(snapshot))
  }

  /** The snapshots of successive calls, while files change between them. */
  function Snapshots(known: Option<Memory>, world: seq<FileSystem>): (r: seq<Option<Snapshot>>)
    ensures |r| == |world|
    decreases |world|
  {
    if world == [] then [] else [Next(known, world[0]).1] + Snapshots(Next(known, world[0]).0, world[1..])
  }

  predicate Finite(known: Option<Memory>) {
    known.Some? ==> 0 < known.value.limit < SENTINEL
  }

  lemma DetectedIsFinite(files: FileSystem)
    ensures Finite(Detect(files))
  {
    hide DetectMounts, Lines, Chunks;
    if Detect(files).Some? {
      DetectionIsFirstLeast(files);
    }
  }

  lemma NextKeepsLimit(known: Option<Memory>, files: FileSystem)
    requires Finite(known)
    ensures var (after, snapshot) := Next(known, files);
            && Finite(after)
            && (known.Some? ==>
                  && after.Some? && after.value.limit == known.value.limit
                  && after.value.currentPath == known.value.currentPath)
            && (snapshot.Some? ==>
                  && after.Some? && ReadCounter(files, after.value.currentPath).Some?
                  && Splits(snapshot.value, after.value.limit, ReadCounter(files, after.value.currentPath).value))
  {
    DetectedIsFinite(files);
    hide Detect, ReadCounter;
  }

  /** Every snapshot reports the finite `total`, and as available exactly what the usage read
      at that time leaves of it. */
  predicate Reports(snapshots: seq<Option<Snapshot>>, world: seq<FileSystem>, total: nat, path: string) {
    0 < total < SENTINEL && |snapshots| == |world| &&
    forall i :: 0 <= i < |world| && snapshots[i].Some? ==>
      ReadCounter(world[i], path).Some? && Splits(snapshots[i].value, total, ReadCounter(world[i], path).value)
  }

  /** Over every sequence of calls, while the files change: all snapshots have one finite total,
      and available is that total less the usage, at least zero. */
  lemma {:induction false} SnapshotsAreBounded(known: Option<Memory>, world: seq<FileSystem>)
    requires Finite(known)
    ensures exists total, path :: Reports(Snapshots(known, world), world, total, path) &&
              (known.Some? ==> total == known.value.limit && path == known.value.currentPath)
    decreases |world|
  {
    hide Next, ReadCounter;
    if world != [] {
      NextKeepsLimit(known, world[0]);
      var (after, snapshot) := Next(known, world[0]);
      SnapshotsAreBounded(after, world[1..]);
      var all, rest := Snapshots(known, world), Snapshots(after, world[1..]);
      assert all == [snapshot] + rest;
      var total, path :| Reports(rest, world[1..], total, path) &&
                         (after.Some? ==> total == after.value.limit && path == after.value.currentPath);
      forall i | 0 <= i < |world| && all[i].Some?
        ensures ReadCounter(world[i], path).Some?
        ensures Splits(all[i].value, total, ReadCounter(world[i], path).value)
      {
        if i > 0 {
          assert all[i] == rest[i-1] && world[i] == world[1..][i-1];
        }
      }
      assert Reports(all, world, total, path);
    } else {
      var total := if known.Some? then known.value.limit else 1;
      var path := if known.Some? then known.value.currentPath else "";
      assert Reports(Snapshots(known, world), world, total, path);
    }
  }

  /** After detection every call whose usage file can be read gives a snapshot, and no other. */
  lemma {:induction false} SnapshotIffReadable(known: Option<Memory>, world: seq<FileSystem>, i: nat)
    requires known.Some? && known.value.currentPath != "" && i < |world|
    ensures Snapshots(known, world)[i].Some? <==> ReadCounter(world[i], known.value.currentPath).Some?
    ensures Snapshots(known, world)[i].Some? ==>
              Splits(Snapshots(known, world)[i].value, known.value.limit,
                     ReadCounter(world[i], known.value.currentPath).value)
    decreases i
  {
    hide ReadCounter;
    if i > 0 {
      SnapshotIffReadable(Next(known, world[0]).0, world[1..], i - 1);
    }
  }

  /** From the text of the usage file to the snapshot, for every call of every sequence. */
  lemma PrintedUsageIsReported(known: Option<Memory>, world: seq<FileSystem>, i: nat, usage: nat)
    requires known.Some? && known.value.currentPath != "" && i < |world| && usage <= U64_MAX
    requires known.value.currentPath in world[i] && world[i][known.value.currentPath] == Print(usage) + "\n"
    ensures var snapshot := Snapshots(known, world)[i];
            && snapshot.Some? && snapshot.value.total == known.value.limit
            && (usage < known.value.limit ==> snapshot.value.available + usage == known.value.limit)
            && (usage >= known.value.limit ==> snapshot.value.available == 0)
  {
    hide ReadCounter, ReadLimit;
    PrintedFileReads(world[i], known.value.currentPath, usage);
    SnapshotIffReadable(known, world, i);
  }

  class View {
    var cgmem: Memory
    var detected: bool

    function Known(): Option<Memory>
      reads this
    {
      if detected then Some(cgmem) else None
    }

    constructor ()
      ensures Known() == None
    {
      cgmem, detected := Memory(0, 0, 0, "", ""), false;
    }

    method TakeSnapshot(files: FileSystem) returns (out: Option<Snapshot>)
      modifies this
      ensures (Known(), out) == Next(old(Known()), files)
    {
      hide Detect, ReadCounter;
      if !detected {
        var best := DetectMemory(files);
        if best == None {
          return None;
        }
        cgmem := best.value;
        detected := true;
      }
      var refreshed := Refresh(files);
      if !refreshed {
        return None;
      }
      out := Some(Snapshot(cgmem.limit, if cgmem.current < cgmem.limit then cgmem.limit - cgmem.current else 0));
    }

    method Refresh(files: FileSystem) returns (ok: bool)
      modifies this`cgmem
      ensures ok <==> old(cgmem).currentPath != "" && ReadCounter(files, old(cgmem).currentPath).Some?
      ensures cgmem == if ok then old(cgmem).(current := ReadCounter(files, old(cgmem).currentPath).value)
                       else old(cgmem)
    {
      hide ReadCounter;
      if cgmem.currentPath == "" {
        return false;
      }
      var current := ReadCounterFile(files, cgmem.currentPath);
      if current == None {
        return false;
      }
      cgmem := cgmem.(current := current.value);
      ok := true;
    }
  }

  // ----- sysinfo

  const UINT_MAX := 0xffff_ffff

  datatype SysInfo = SysInfo(totalRam: nat, freeRam: nat, memUnit: nat)

  function Pow2(k: nat): (p: nat)
    ensures p > 0
  {
    if k == 0 then 1 else 2 * Pow2(k - 1)
  }

  /** Both numbers fit an unsigned long in units of 2^k. */
  predicate Fits(s: Snapshot, ulongMax: nat, k: nat) {
    s.total / Pow2(k) <= ulongMax && s.available / Pow2(k) <= ulongMax
  }

  lemma MultiplyMore(a: nat, b: nat, c: nat)
    requires a <= b
    ensures a * c <= b * c
  {
  }

  lemma DistributeOne(a: nat, c: nat)
    ensures (a + 1) * c == a * c + c
  {
  }

  lemma DivideAtLeast(x: nat, unit: nat, n: nat)
    requires unit > 0 && n * unit <= x
    ensures x / unit >= n
  {
    ScalingLoss(x, unit);
    if x / unit + 1 <= n {
      MultiplyMore(x / unit + 1, n, unit);
    }
  }

  /** Doubling the unit does not enlarge the quotient. */
  lemma DoubleUnit(x: nat, unit: nat)
    requires unit > 0
    ensures x / (2 * unit) <= x / unit
  {
    var q := x / (2 * unit);
    ScalingLoss(x, 2 * unit);
    assert q * (2 * unit) == (2 * q) * unit;
    DivideAtLeast(x, unit, 2 * q);
  }

  /** Less than one unit is lost by the division. */
  lemma ScalingLoss(x: nat, unit: nat)
    requires unit > 0
    ensures 0 <= x - (x / unit) * unit < unit
  {
  }

  lemma {:induction false} Pow2Grows(i: nat, j: nat)
    requires i <= j
    ensures Pow2(i) <= Pow2(j)
    ensures i < j ==> 2 * Pow2(i) <= Pow2(j)
    decreases j
  {
    if i < j {
      Pow2Grows(i, j - 1);
    }
  }

  lemma {:induction false} FitsGrows(s: Snapshot, ulongMax: nat, i: nat, j: nat)
    requires i <= j && Fits(s, ulongMax, i)
    ensures Fits(s, ulongMax, j)
    decreases j
  {
    if i < j {
      FitsGrows(s, ulongMax, i, j - 1);
      DoubleUnit(s.total, Pow2(j - 1));
      DoubleUnit(s.available, Pow2(j - 1));
    }
  }

  lemma Pow2Next(k: nat)
    ensures Pow2(k + 1) == 2 * Pow2(k)
  {
  }

  lemma Pow2Values()
    ensures Pow2(0) == 1 && Pow2(31) == 0x8000_0000
  {
    assert Pow2(4) == 16;
    assert Pow2(8) == 256;
    assert Pow2(12) == 4096;
    assert Pow2(16) == 65536;
    assert Pow2(20) == 0x10_0000;
    assert Pow2(24) == 0x100_0000;
    assert Pow2(28) == 0x1000_0000;
  }

  /** The scaling loop: the unit is the least power of two, up to 2^31, in which both numbers
      fit; it fails exactly when they do not fit in units of 2^31. */
  method EncodeSysinfo(s: Snapshot, ulongMax: nat) returns (info: Option<SysInfo>)
    ensures info.Some? <==> Fits(s, ulongMax, 31)
    ensures info.Some? ==> exists k: nat ::
              && k <= 31 && info.value.memUnit == Pow2(k) && Fits(s, ulongMax, k)
              && forall j :: 0 <= j < k ==> !Fits(s, ulongMax, j)
    ensures info.Some? ==>
              && 0 <= s.total - info.value.totalRam * info.value.memUnit < info.value.memUnit
              && 0 <= s.available - info.value.freeRam * info.value.memUnit < info.value.memUnit
  {
    hide Pow2;
    var scale := 1;
    ghost var k := 0;
    Pow2Values();
    while s.total / scale > ulongMax || s.available / scale > ulongMax
      invariant k <= 31 && scale == Pow2(k)
      invariant forall j :: 0 <= j < k ==> !Fits(s, ulongMax, j)
      decreases 31 - k
    {
      assert !Fits(s, ulongMax, k);
      if scale > UINT_MAX / 2 {
        assert k == 31 by {
          if k < 31 {
            Pow2Grows(k, 31);
          }
        }
        return None;
      }
      assert k < 31;
      Pow2Next(k);
      scale := scale * 2;
      k := k + 1;
    }
    FitsGrows(s, ulongMax, k, 31);
    ScalingLoss(s.total, scale);
    ScalingLoss(s.available, scale);
    info := Some(SysInfo(s.total / scale, s.available / scale, scale));
  }

  lemma FiniteFits(s: Snapshot, ulongMax: nat)
    ensures s.total < SENTINEL && s.available <= s.total && ulongMax >= UINT_MAX ==> Fits(s, ulongMax, 31)
  {
    Pow2Values();
    assert s.total < SENTINEL ==> s.total / 0x8000_0000 <= UINT_MAX;
    assert s.available < SENTINEL ==> s.available / 0x8000_0000 <= UINT_MAX;
  }

  /** Cross-module bound: every snapshot fits, even where unsigned long has 32 bits, and in
      units of one byte where it has 64. */
  lemma SnapshotsAlwaysEncode(known: Option<Memory>, world: seq<FileSystem>, i: nat, ulongMax: nat)
    requires Finite(known) && i < |world| && Snapshots(known, world)[i].Some?
    ensures ulongMax >= UINT_MAX ==> Fits(Snapshots(known, world)[i].value, ulongMax, 31)
    ensures ulongMax >= U64_MAX ==> Fits(Snapshots(known, world)[i].value, ulongMax, 0)
  {
    SnapshotsAreBounded(known, world);
    Pow2Values();
    var s := Snapshots(known, world)[i].value;
    assert s.total / 0x8000_0000 <= UINT_MAX;
    assert s.available / 0x8000_0000 <= UINT_MAX;
  }

  /** No snapshot overflows a 64-bit page count, whatever the page size. */
  lemma SnapshotPagesFit(known: Option<Memory>, world: seq<FileSystem>, i: nat, pageSize: int)
    requires Finite(known) && i < |world| && Snapshots(known, world)[i].Some? && pageSize > 0
    ensures Snapshots(known, world)[i].value.total < (0x7fff_ffff_ffff_ffff + 1) * pageSize
    ensures Snapshots(known, world)[i].value.available < (0x7fff_ffff_ffff_ffff + 1) * pageSize
  {
    SnapshotsAreBounded(known, world);
    MultiplyMore(1, pageSize, 0x7fff_ffff_ffff_ffff + 1);
  }

  // ----- sysconf

  /** The whole pages in `bytes`; none when their number does not fit a long. */
  predicate CountsPages(pages: Option<int>, bytes: nat, pageSize: int, longMax: nat) {
    && (pages == None <==> bytes >= (longMax + 1) * pageSize)
    && (pages.Some? ==> 0 <= bytes - pages.value * pageSize < pageSize)
  }

  /** `pageSize` and `libcAnswer` are libc's own answers; None stands for EOVERFLOW. */
  method Sysconf(physical: bool, pageSize: int, snapshot: Option<Snapshot>, libcAnswer: int, longMax: nat)
    returns (pages: Option<int>)
    ensures pageSize <= 0 || snapshot == None ==> pages == Some(libcAnswer)
    ensures pageSize > 0 && snapshot.Some? && physical ==> CountsPages(pages, snapshot.value.total, pageSize, longMax)
    ensures pageSize > 0 && snapshot.Some? && !physical ==>
              CountsPages(pages, snapshot.value.available, pageSize, longMax)
  {
    if snapshot == None || pageSize <= 0 {
      return Some(libcAnswer);
    }
    var bytes := if physical then snapshot.value.total else snapshot.value.available;
    var count := bytes / pageSize;
    PagesBound(bytes, pageSize, longMax);
    if count > longMax {
      return None;
    }
    pages := Some(count);
  }

  lemma PagesBound(bytes: nat, pageSize: int, longMax: nat)
    requires pageSize > 0
    ensures bytes / pageSize > longMax <==> bytes >= (longMax + 1) * pageSize
  {
    var q := bytes / pageSize;
    ScalingLoss(bytes, pageSize);
    if q > longMax {
      MultiplyMore(longMax + 1, q, pageSize);
    } else {
      MultiplyMore(q + 1, longMax + 1, pageSize);
      DistributeOne(q, pageSize);
    }
  }
}
