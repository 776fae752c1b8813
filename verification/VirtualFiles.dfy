/** The 64-slot table of virtual file contents: what `read` serves for a descriptor whose
    open was answered with a rewritten /proc/meminfo. */
module VirtualFiles {
  import opened Text

  const CAPACITY := 64

  /** One entry of the array; `data` is the private copy, of `len` bytes. */
  datatype Slot = Slot(active: bool, fd: int, data: string, len: nat, offset: nat)

  const EMPTY_SLOT := Slot(false, -1, "", 0, 0)

  /** What the table says about one descriptor. */
  datatype Virtual = Virtual(data: string, offset: nat)

  type Files = map<int, Virtual>

  // ----- the meaning of the operations

  datatype Op =
    | Put(fd: int, data: string, canAllocate: bool)
    | Read(fd: int, count: nat)
    | Remove(fd: int)

  /** How many of `count` requested bytes are left. */
  function Available(v: Virtual, count: nat): (n: nat)
    ensures n <= count && (v.offset <= |v.data| ==> v.offset + n <= |v.data|)
  {
    if v.offset > |v.data| then 0
    else if |v.data| - v.offset < count then |v.data| - v.offset
    else count
  }

  /** The next bytes a read of `count` delivers. */
  function Served(v: Virtual, count: nat): (s: string)
    ensures |s| == Available(v, count)
  {
    var n := Available(v, count);
    if n == 0 then "" else v.data[v.offset..v.offset + n]
  }

  predicate PutSucceeds(files: Files, fd: int, data: string, canAllocate: bool) {
    fd >= 0 && (data == "" || canAllocate) && (fd in files || |files| < CAPACITY)
  }

  function Apply(files: Files, op: Op): Files {
    match op
    case Put(fd, data, canAllocate) =>
      if PutSucceeds(files, fd, data, canAllocate) then files[fd := Virtual(data, 0)] else files
    case Read(fd, count) =>
      if fd in files then files[fd := Virtual(files[fd].data, files[fd].offset + |Served(files[fd], count)|)] else files
    case Remove(fd) => files - {fd}
  }

  // ----- sequences of operations

  function Run(files: Files, ops: seq<Op>): Files
    decreases |ops|
  {
    if ops == [] then files else Run(Apply(files, ops[0]), ops[1..])
  }

  /** All bytes the reads on `fd` deliver along a run, one after the other. */
  function Delivered(files: Files, fd: int, ops: seq<Op>): string
    decreases |ops|
  {
    if ops == [] then ""
    else
      (if ops[0].Read? && ops[0].fd == fd && fd in files then Served(files[fd], ops[0].count) else "")
      + Delivered(Apply(files, ops[0]), fd, ops[1..])
  }

  function Requested(fd: int, ops: seq<Op>): nat
    decreases |ops|
  {
    if ops == [] then 0
    else (if ops[0].Read? && ops[0].fd == fd then ops[0].count else 0) + Requested(fd, ops[1..])
  }

  /** Only reads touch `fd`; anything may happen to the other descriptors. */
  predicate OnlyReads(fd: int, ops: seq<Op>) {
    forall i :: 0 <= i < |ops| ==> ops[i].fd == fd ==> ops[i].Read?
  }

  /** Two reads in a row deliver what one read of the sum would. */
  lemma ServedTwice(v: Virtual, first: nat, second: nat)
    requires v.offset <= |v.data|
    ensures var after := Virtual(v.data, v.offset + Available(v, first));
            && after.offset <= |v.data|
            && Available(v, first) + Available(after, second) == Available(v, first + second)
            && Served(v, first) + Served(after, second) == Served(v, first + second)
  {
  }

  /** However the reads are cut and interleaved, they deliver the file once, in order, from
      the current offset up to its end or to the total requested. */
  lemma {:induction false} ReadsDeliverPrefix(files: Files, fd: int, ops: seq<Op>)
    requires fd in files && files[fd].offset <= |files[fd].data| && OnlyReads(fd, ops)
    ensures Delivered(files, fd, ops) == Served(files[fd], Requested(fd, ops))
    ensures fd in Run(files, ops)
    ensures Run(files, ops)[fd] ==
            Virtual(files[fd].data, files[fd].offset + Available(files[fd], Requested(fd, ops)))
    decreases |ops|
  {
    hide Served, Available;
    var v := files[fd];
    if ops == [] {
      ServedNothing(v);
    } else {
      var op, rest := ops[0], ops[1..];
      var next := Apply(files, op);
      if op.fd == fd {
        ServedTwice(v, op.count, Requested(fd, rest));
        ReadsDeliverPrefix(next, fd, rest);
      } else {
        assert next[fd] == v;
        ReadsDeliverPrefix(next, fd, rest);
        assert Delivered(files, fd, ops) == Delivered(next, fd, rest);
      }
    }
  }

  lemma ServedNothing(v: Virtual)
    ensures Served(v, 0) == "" && Available(v, 0) == 0
  {
  }

  /** From the open on: the first byte of the contents is delivered first. */
  lemma ReadsAfterPut(files: Files, fd: int, data: string, canAllocate: bool, ops: seq<Op>)
    requires fd >= 0 && (data == "" || canAllocate) && (fd in files || |files| < 64) && OnlyReads(fd, ops)
    ensures var want := Requested(fd, ops);
            Delivered(Apply(files, Put(fd, data, canAllocate)), fd, ops) ==
            data[..if |data| < want then |data| else want]
  {
    ReadsDeliverPrefix(Apply(files, Put(fd, data, canAllocate)), fd, ops);
  }

  // ----- the slots as a map

  ghost predicate Distinct(slots: seq<Slot>) {
    forall i, j :: 0 <= i < j < |slots| && slots[i].active && slots[j].active ==> slots[i].fd != slots[j].fd
  }

  /** None of the first `k` slots is active for `fd`. */
  predicate AbsentBefore(slots: seq<Slot>, k: nat, fd: int) {
    k <= |slots| && forall i :: 0 <= i < k ==> !(slots[i].active && slots[i].fd == fd)
  }

  function FilesOf(slots: seq<Slot>): Files {
    if slots == [] then map[]
    else
      var rest := FilesOf(slots[1..]);
      if slots[0].active then rest[slots[0].fd := Virtual(slots[0].data, slots[0].offset)] else rest
  }

  function ActiveCount(slots: seq<Slot>): nat {
    if slots == [] then 0 else (if slots[0].active then 1 else 0) + ActiveCount(slots[1..])
  }

  lemma {:induction false} FilesAbsent(slots: seq<Slot>, fd: int)
    requires AbsentBefore(slots, |slots|, fd)
    ensures fd !in FilesOf(slots)
  {
    if slots != [] {
      FilesAbsent(slots[1..], fd);
    }
  }

  lemma {:induction false} FilesAt(slots: seq<Slot>, k: nat)
    requires Distinct(slots) && k < |slots| && slots[k].active
    ensures slots[k].fd in FilesOf(slots)
    ensures FilesOf(slots)[slots[k].fd] == Virtual(slots[k].data, slots[k].offset)
  {
    if k > 0 {
      FilesAt(slots[1..], k - 1);
    }
  }

  /** The table holds as many files as it has active slots. */
  lemma {:induction false} FilesCount(slots: seq<Slot>)
    requires Distinct(slots)
    ensures |FilesOf(slots)| == ActiveCount(slots) <= |slots|
  {
    if slots != [] {
      FilesCount(slots[1..]);
      if slots[0].active {
        FilesAbsent(slots[1..], slots[0].fd);
      }
    }
  }

  lemma {:induction false} ActiveCountFull(slots: seq<Slot>)
    ensures ActiveCount(slots) <= |slots|
    ensures ActiveCount(slots) == |slots| <==> forall i :: 0 <= i < |slots| ==> slots[i].active
  {
    if slots != [] {
      ActiveCountFull(slots[1..]);
      assert forall i :: 0 <= i < |slots| - 1 ==> slots[1..][i] == slots[i+1];
      if forall i :: 0 <= i < |slots| - 1 ==> slots[1..][i].active {
        forall i | 1 <= i < |slots|
          ensures slots[i].active
        {
          assert slots[1..][i-1].active;
        }
      }
    }
  }

  /** Emptying slot `k`. */
  lemma {:induction false} FilesCleared(slots: seq<Slot>, k: nat)
    requires Distinct(slots) && k < |slots| && slots[k].active
    ensures FilesOf(slots[k := EMPTY_SLOT]) == FilesOf(slots) - {slots[k].fd}
    decreases |slots|
  {
    var cleared, rest := slots[k := EMPTY_SLOT], slots[1..];
    if k > 0 {
      FilesCleared(rest, k - 1);
      assert cleared[1..] == rest[k-1 := EMPTY_SLOT];
    } else {
      assert cleared[1..] == rest;
      FilesAbsent(rest, slots[0].fd);
    }
  }

  /** Filling slot `k`, if no other slot is active for the new descriptor. */
  lemma {:induction false} FilesFilled(slots: seq<Slot>, k: nat, slot: Slot)
    requires k < |slots| && slot.active && (slots[k].active ==> slots[k].fd == slot.fd)
    requires forall i :: 0 <= i < |slots| && i != k && slots[i].active ==> slots[i].fd != slot.fd
    ensures FilesOf(slots[k := slot]) == FilesOf(slots)[slot.fd := Virtual(slot.data, slot.offset)]
    decreases |slots|
  {
    var filled, rest := slots[k := slot], slots[1..];
    if k > 0 {
      assert forall i :: 0 <= i < |rest| ==> rest[i] == slots[i+1];
      FilesFilled(rest, k - 1, slot);
      assert filled[1..] == rest[k-1 := slot];
    } else {
      assert filled[1..] == rest;
    }
  }

  // ----- the table

  class Table {
    const entries: array<Slot>

    ghost predicate Valid()
      reads entries
    {
      && entries.Length == CAPACITY
      && Distinct(entries[..])
      && forall i :: 0 <= i < CAPACITY && entries[i].active ==>
           entries[i].fd >= 0 && entries[i].len == |entries[i].data| && entries[i].offset <= entries[i].len
    }

    ghost function Contents(): Files
      reads entries
    {
      FilesOf(entries[..])
    }

    constructor ()
      ensures Valid() && fresh(entries) && Contents() == map[]
    {
      entries := new Slot[CAPACITY](_ => EMPTY_SLOT);
      new;
      AllInactive(entries[..]);
    }

    static lemma {:induction false} AllInactive(slots: seq<Slot>)
      requires forall i :: 0 <= i < |slots| ==> !slots[i].active
      ensures FilesOf(slots) == map[]
    {
      if slots != [] {
        AllInactive(slots[1..]);
      }
    }

    /** The scan for a descriptor; the capacity when there is none. */
    method FindSlot(fd: int) returns (k: nat)
      requires Valid()
      ensures k < CAPACITY ==> entries[k].active && entries[k].fd == fd &&
                               fd in Contents() && Contents()[fd] == Virtual(entries[k].data, entries[k].offset)
      ensures k >= CAPACITY ==> k == CAPACITY && AbsentBefore(entries[..], CAPACITY, fd) && fd !in Contents()
    {
      hide FilesOf, Distinct;
      k := 0;
      while k < CAPACITY && !(entries[k].active && entries[k].fd == fd)
        invariant k <= CAPACITY && AbsentBefore(entries[..], k, fd)
      {
        k := k + 1;
      }
      if k < CAPACITY {
        FilesAt(entries[..], k);
      } else {
        FilesAbsent(entries[..], fd);
      }
    }

    /** The scan for a free slot. */
    method FindFree() returns (k: nat)
      requires Valid()
      ensures k < CAPACITY ==> !entries[k].active && |Contents()| < CAPACITY
      ensures k >= CAPACITY ==> k == CAPACITY && |Contents()| == CAPACITY
    {
      hide FilesOf, Distinct, ActiveCount;
      k := 0;
      while k < CAPACITY && entries[k].active
        invariant k <= CAPACITY && forall i :: 0 <= i < k ==> entries[i].active
      {
        k := k + 1;
      }
      FilesCount(entries[..]);
      ActiveCountFull(entries[..]);
      assert k < CAPACITY ==> !entries[..][k].active;
    }

    method ClearEntry(k: nat)
      requires Valid() && k < CAPACITY && entries[k].active
      modifies entries
      ensures Valid() && entries[..] == old(entries[..])[k := EMPTY_SLOT]
      ensures Contents() == old(Contents()) - {old(entries[k].fd)}
    {
      FilesCleared(entries[..], k);
      entries[k] := EMPTY_SLOT;
      assert entries[..] == old(entries[..])[k := EMPTY_SLOT];
    }

    method FillEntry(k: nat, fd: int, data: string)
      requires Valid() && k < CAPACITY && !entries[k].active && fd >= 0 && AbsentBefore(entries[..], CAPACITY, fd)
      modifies entries
      ensures Valid() && Contents() == old(Contents())[fd := Virtual(data, 0)]
    {
      var slot := Slot(true, fd, data, |data|, 0);
      FilesFilled(entries[..], k, slot);
      entries[k] := slot;
      assert entries[..] == old(entries[..])[k := slot];
    }

    /** `canAllocate` is the outcome of malloc, asked only for non-empty data. */
    method Put(fd: int, data: string, canAllocate: bool) returns (ok: bool)
      requires Valid()
      modifies entries
      ensures Valid()
      ensures ok <==>
              fd >= 0 && (data == "" || canAllocate) && (fd in old(Contents()) || |old(Contents())| < 64)
      ensures Contents() == if ok then old(Contents())[fd := Virtual(data, 0)] else old(Contents())
      ensures Contents() == Apply(old(Contents()), Op.Put(fd, data, canAllocate))
    {
      hide FilesOf, Distinct;
      if fd < 0 || (|data| > 0 && !canAllocate) {
        return false;
      }
      var k := FindSlot(fd);
      if k < CAPACITY {
        ClearEntry(k);
        assert entries[..][k] == EMPTY_SLOT;
        AbsentAfterClear(fd);
      } else {
        k := FindFree();
        if k == CAPACITY {
          return false;
        }
      }
      FillEntry(k, fd, data);
      ok := true;
    }

    lemma AbsentAfterClear(fd: int)
      requires Valid() && fd !in Contents()
      ensures AbsentBefore(entries[..], CAPACITY, fd)
    {
      forall i | 0 <= i < CAPACITY && entries[i].active
        ensures entries[i].fd != fd
      {
        FilesAt(entries[..], i);
      }
    }

    lemma SlotIsBounded(k: nat)
      requires Valid() && k < CAPACITY && entries[k].active
      ensures entries[k].len == |entries[k].data| && entries[k].offset <= entries[k].len
    {
    }

    static lemma ReadOfNothing(files: Files, fd: int, count: nat)
      requires fd !in files
      ensures Apply(files, Read(fd, count)) == files
    {
    }

    static lemma ReadOfSlot(files: Files, slot: Slot, count: nat)
      requires slot.fd in files && files[slot.fd] == Virtual(slot.data, slot.offset)
      requires slot.len == |slot.data| && slot.offset <= slot.len
      ensures var out := if slot.len - slot.offset < count then slot.len - slot.offset else count;
              && Served(files[slot.fd], count) == slot.data[slot.offset..slot.offset + out]
              && Apply(files, Read(slot.fd, count)) == files[slot.fd := Virtual(slot.data, slot.offset + out)]
    {
    }

    /** Copies the next bytes into `buf` and advances the offset. */
    method TakeRead(fd: int, buf: array<char>, count: nat) returns (found: bool, out: nat)
      requires Valid() && count <= buf.Length
      modifies entries, buf
      ensures Valid()
      ensures found <==> fd in old(Contents())
      ensures found ==> out == |Served(old(Contents())[fd], count)| <= count &&
                        buf[..] == Served(old(Contents())[fd], count) + old(buf[out..])
      ensures found ==>
                var v := old(Contents())[fd];
                && v.offset <= |v.data| && out == (if |v.data| - v.offset < count then |v.data| - v.offset else count)
                && buf[..out] == v.data[v.offset..v.offset + out]
                && Contents() == old(Contents())[fd := Virtual(v.data, v.offset + out)]
      ensures !found ==> buf[..] == old(buf[..]) && Contents() == old(Contents())
      ensures Contents() == Apply(old(Contents()), Read(fd, count))
    {
      hide FilesOf, Distinct, Served, Available, Apply;
      out := 0;
      var k := FindSlot(fd);
      if k == CAPACITY {
        ReadOfNothing(Contents(), fd, count);
        return false, 0;
      }
      var slot := entries[k];
      SlotIsBounded(k);
      var remaining := slot.len - slot.offset;
      out := if remaining < count then remaining else count;
      ReadOfSlot(Contents(), slot, count);
      Advance(k, slot.(offset := slot.offset + out));
      CopyBytes(buf, 0, slot.data[slot.offset..slot.offset + out]);
      found := true;
    }

    method Advance(k: nat, advanced: Slot)
      requires Valid() && k < CAPACITY && entries[k].active
      requires advanced == entries[k].(offset := advanced.offset) && advanced.offset <= advanced.len
      modifies entries
      ensures Valid()
      ensures Contents() == old(Contents())[advanced.fd := Virtual(advanced.data, advanced.offset)]
    {
      FilesFilled(entries[..], k, advanced);
      entries[k] := advanced;
      assert entries[..] == old(entries[..])[k := advanced];
    }

    method Remove(fd: int)
      requires Valid()
      modifies entries
      ensures Valid() && Contents() == old(Contents()) - {fd}
      ensures Contents() == Apply(old(Contents()), Op.Remove(fd))
    {
      var k := FindSlot(fd);
      if k < CAPACITY {
        ClearEntry(k);
      }
    }
  }
}
