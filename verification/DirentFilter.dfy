/** In-place compaction of a packed linux_dirent64 buffer (getdents(2)): records carry
    their own length in bytes 16 and 17, and the filter reads that length a second time
    after it has moved the record. */
module DirentFilter {
  import opened Text
  import opened GpuPaths

  /** Offset of d_name: 8 bytes of d_ino, 8 of d_off, 2 of d_reclen, 1 of d_type. */
  const HEADER := 19

  function U16(lo: Byte, hi: Byte): (n: nat)
    ensures n <= 0xffff
  {
    lo as int + 256 * (hi as int)
  }

  /** d_reclen of the record at offset `r`. */
  function RecLen(buf: seq<Byte>, r: nat): nat
    requires r + HEADER <= |buf|
  {
    U16(buf[r+16], buf[r+17])
  }

  /** The validation of one record: a whole header, a length that covers it and stays in
      the buffer, and a name terminated within that length. */
  predicate ValidAt(buf: seq<Byte>, r: nat) {
    r + HEADER <= |buf| && HEADER <= RecLen(buf, r) && r + RecLen(buf, r) <= |buf| &&
    '\0' in buf[r+HEADER..r+RecLen(buf, r)]
  }

  function NameAt(buf: seq<Byte>, r: nat): string
    requires ValidAt(buf, r)
  {
    var field := buf[r+HEADER..r+RecLen(buf, r)];
    field[..Find(field, '\0')]
  }

  predicate KeepName(allowed: AllowedGpus, name: string) {
    name == "." || name == ".." || AllowsBus(allowed, name)
  }

  /** memmove of `n` bytes from `r` down to `w`. */
  function Moved(buf: seq<Byte>, r: nat, w: nat, n: nat): (out: seq<Byte>)
    requires w <= r && r + n <= |buf|
    ensures |out| == |buf|
  {
    seq(|buf|, k requires 0 <= k < |buf| => if w <= k < w + n then buf[k - w + r] else buf[k])
  }

  datatype Outcome = Outcome(bytes: seq<Byte>, result: int)

  /** The loop from offsets `r` and `w`. A kept record advances both by the length found in
      the buffer after the move. */
  function Compact(allowed: AllowedGpus, buf: seq<Byte>, r: nat, w: nat): (o: Outcome)
    requires w <= r
    ensures |o.bytes| == |buf|
    decreases |buf| - r, if ValidAt(buf, r) then 1 else 0
  {
    if r >= |buf| then Outcome(buf, w)
    else if !ValidAt(buf, r) then Outcome(buf, |buf|)
    else if KeepName(allowed, NameAt(buf, r)) then
      var next := Moved(buf, r, w, RecLen(buf, r));
      var n := RecLen(next, r);
      Compact(allowed, next, r + n, w + n)
    else Compact(allowed, buf, r + RecLen(buf, r), w)
  }

  lemma CompactStep(allowed: AllowedGpus, buf: seq<Byte>, r: nat, w: nat)
    requires w <= r < |buf|
    ensures Compact(allowed, buf, r, w) ==
            if !ValidAt(buf, r) then Outcome(buf, |buf|)
            else if KeepName(allowed, NameAt(buf, r)) then
              var next := Moved(buf, r, w, RecLen(buf, r));
              Compact(allowed, next, r + RecLen(next, r), w + RecLen(next, r))
            else Compact(allowed, buf, r + RecLen(buf, r), w)
  {
  }

  /** The validation of the record at `r`, and its name. */
  method ReadName(buffer: array<Byte>, len: nat, r: nat) returns (valid: bool, name: string)
    requires r <= len <= buffer.Length
    ensures valid <==> ValidAt(buffer[..len], r)
    ensures valid ==> name == NameAt(buffer[..len], r)
  {
    name := "";
    if len - r < HEADER {
      return false, name;
    }
    var recLen := U16(buffer[r+16], buffer[r+17]);
    if recLen < HEADER || recLen > len - r {
      return false, name;
    }
    var field := buffer[r+HEADER..r+recLen];
    assert field == buffer[..len][r+HEADER..r+recLen];
    var nameLen := Find(field, '\0');
    name := field[..nameLen];
    valid := nameLen < |field|;
    if valid {
      assert field[nameLen] in field;
    } else {
      assert name == field;
    }
  }

  /** memmove inside the buffer. */
  method MoveDown(buffer: array<Byte>, len: nat, r: nat, w: nat, n: nat)
    requires w <= r && r + n <= len <= buffer.Length
    modifies buffer
    ensures buffer[..len] == Moved(old(buffer[..len]), r, w, n)
    ensures buffer[len..] == old(buffer[len..])
  {
    if w != r {
      forall k | 0 <= k < n {
        buffer[w + k] := buffer[r + k];
      }
    }
  }

  /** One turn of the loop: stop at a malformed record, or move a kept one down and advance
      by the length then found at its old place, or skip a dropped one. */
  method Turn(buffer: array<Byte>, len: nat, allowed: AllowedGpus, r: nat, w: nat)
    returns (stop: bool, newR: nat, newW: nat)
    requires w <= r < len <= buffer.Length && allowed.valid
    modifies buffer
    ensures buffer[len..] == old(buffer[len..]) && newW <= newR
    ensures stop ==> buffer[..len] == old(buffer[..len]) &&
                     Compact(allowed, buffer[..len], r, w) == Outcome(buffer[..len], len)
    ensures !stop ==> Compact(allowed, old(buffer[..len]), r, w) == Compact(allowed, buffer[..len], newR, newW)
    ensures !stop ==> ValidAt(old(buffer[..len]), r)
    ensures !stop ==> r < newR || (r == newR && !ValidAt(buffer[..len], newR))
  {
    hide Compact, ValidAt, NameAt, Moved;
    newR, newW := r, w;
    CompactStep(allowed, buffer[..len], r, w);
    var valid, name := ReadName(buffer, len, r);
    if !valid {
      return true, r, w;
    }
    stop := false;
    ValidLength(buffer[..len], r);
    var recLen := U16(buffer[r+16], buffer[r+17]);
    var found := ContainsBus(allowed, name);
    if name == "." || name == ".." || found {
      if w != r {
        MoveDown(buffer, len, r, w, recLen);
      } else {
        MovedNowhere(buffer[..len], r, recLen);
      }
      recLen := U16(buffer[r+16], buffer[r+17]);
      newW := w + recLen;
      if recLen == 0 {
        ZeroLengthIsInvalid(buffer[..len], r);
      }
    }
    newR := r + recLen;
  }

  /** The program: every access is inside `buffer[..len]` and the loop terminates on every
      byte content, because a second length of zero fails validation on the next turn. */
  method FilterDirentBuffer(buffer: array<Byte>, len: int, allowed: AllowedGpus) returns (result: int)
    requires len <= buffer.Length
    modifies buffer
    ensures len <= 0 || !allowed.valid ==> result == len && buffer[..] == old(buffer[..])
    ensures len > 0 && allowed.valid ==>
              var o := Compact(allowed, old(buffer[..len]), 0, 0);
              result == o.result && buffer[..len] == o.bytes && buffer[len..] == old(buffer[len..])
  {
    if len <= 0 || !allowed.valid {
      return len;
    }
    hide Compact, ValidAt;
    var readOffset, writeOffset := 0, 0;
    ghost var goal := Compact(allowed, buffer[..len], 0, 0);
    while readOffset < len
      invariant 0 <= writeOffset <= readOffset
      invariant goal == Compact(allowed, buffer[..len], readOffset, writeOffset)
      invariant buffer[len..] == old(buffer[len..])
      decreases len - readOffset, if ValidAt(buffer[..len], readOffset) then 1 else 0
    {
      var stop;
      stop, readOffset, writeOffset := Turn(buffer, len, allowed, readOffset, writeOffset);
      if stop {
        return len;
      }
    }
    CompactDone(allowed, buffer[..len], readOffset, writeOffset);
    result := writeOffset;
  }

  lemma ValidLength(buf: seq<Byte>, r: nat)
    requires ValidAt(buf, r)
    ensures r + HEADER <= |buf| && HEADER <= RecLen(buf, r) <= |buf| - r
  {
  }

  lemma ZeroLengthIsInvalid(buf: seq<Byte>, r: nat)
    requires r + HEADER <= |buf| && RecLen(buf, r) == 0
    ensures !ValidAt(buf, r)
  {
  }

  lemma MovedNowhere(buf: seq<Byte>, r: nat, n: nat)
    requires r + n <= |buf|
    ensures Moved(buf, r, r, n) == buf
  {
  }

  lemma CompactDone(allowed: AllowedGpus, buf: seq<Byte>, r: nat, w: nat)
    requires w <= r && r >= |buf|
    ensures Compact(allowed, buf, r, w) == Outcome(buf, w)
  {
  }

  // ----- records

  type Record = seq<Byte>

  predicate WellFormed(rec: Record) {
    ValidAt(rec, 0) && RecLen(rec, 0) == |rec|
  }

  predicate AllWellFormed(recs: seq<Record>) {
    forall i :: 0 <= i < |recs| ==> WellFormed(recs[i])
  }

  function Name(rec: Record): string
    requires WellFormed(rec)
  {
    NameAt(rec, 0)
  }

  predicate Keeps(allowed: AllowedGpus, rec: Record)
    requires WellFormed(rec)
  {
    KeepName(allowed, Name(rec))
  }

  function Concat(recs: seq<Record>): seq<Byte> {
    if recs == [] then [] else recs[0] + Concat(recs[1..])
  }

  /** The list-level meaning of the filter. */
  function Kept(allowed: AllowedGpus, recs: seq<Record>): (kept: seq<Record>)
    requires AllWellFormed(recs)
    ensures AllWellFormed(kept)
  {
    if recs == [] then []
    else if Keeps(allowed, recs[0]) then [recs[0]] + Kept(allowed, recs[1..])
    else Kept(allowed, recs[1..])
  }

  /** What a reader of the buffer sees. */
  function Decode(buf: seq<Byte>): (recs: Option<seq<Record>>)
    ensures recs.Some? ==> AllWellFormed(recs.value)
    decreases |buf|
  {
    if buf == [] then Some([])
    else if !ValidAt(buf, 0) then None
    else
      var n := RecLen(buf, 0);
      assert buf[..n][HEADER..n] == buf[HEADER..n];
      match Decode(buf[n..])
      case None => None
      case Some(recs) => Some([buf[..n]] + recs)
  }

  lemma ValidAtSuffix(buf: seq<Byte>, r: nat)
    requires r <= |buf|
    ensures ValidAt(buf, r) <==> ValidAt(buf[r..], 0)
  {
    var rest := buf[r..];
    if r + HEADER <= |buf| {
      var n := RecLen(buf, r);
      if HEADER <= n && r + n <= |buf| {
        assert buf[r+HEADER..r+n] == rest[HEADER..n];
      }
    }
  }

  /** A record reads the same wherever it stands. */
  lemma RecordAt(buf: seq<Byte>, r: nat, rec: Record, rest: seq<Byte>)
    requires WellFormed(rec) && r <= |buf| && buf[r..] == rec + rest
    ensures ValidAt(buf, r) && RecLen(buf, r) == |rec| && NameAt(buf, r) == Name(rec)
    ensures buf[r..r+|rec|] == rec && buf[r+|rec|..] == rest
  {
    forall k | 0 <= k < |rec|
      ensures buf[r+k] == rec[k]
    {
      assert buf[r..][k] == (rec + rest)[k];
    }
    assert buf[r+HEADER..r+|rec|] == rec[HEADER..|rec|];
    assert buf[r+|rec|..] == (rec + rest)[|rec|..];
  }

  lemma {:induction false} DecodeInvertsConcat(recs: seq<Record>)
    requires AllWellFormed(recs)
    ensures Decode(Concat(recs)) == Some(recs)
    decreases |recs|
  {
    hide WellFormed;
    if recs != [] {
      var buf, rest := Concat(recs), Concat(recs[1..]);
      assert buf[0..] == recs[0] + rest;
      RecordAt(buf, 0, recs[0], rest);
      DecodeInvertsConcat(recs[1..]);
      assert [recs[0]] + recs[1..] == recs;
    }
  }

  lemma {:induction false} ConcatInvertsDecode(buf: seq<Byte>)
    requires Decode(buf).Some?
    ensures Concat(Decode(buf).value) == buf
    decreases |buf|
  {
    hide U16, Find;
    if buf != [] {
      var n := RecLen(buf, 0);
      ConcatInvertsDecode(buf[n..]);
      ConcatCons(buf[..n], Decode(buf[n..]).value);
    }
  }

  // ----- when the second reading of the length is the first one

  /** The length found behind the move, when a record moves down by `gap` bytes: once the
      record is longer than gap + 16, its own later bytes land on its old length field. */
  function Reread(rec: Record, gap: nat): nat
    requires WellFormed(rec)
  {
    U16(if gap + 16 < |rec| then rec[gap + 16] else rec[16],
        if gap + 17 < |rec| then rec[gap + 17] else rec[17])
  }

  /** Every kept record's length survives its own move; `gap` bytes were dropped before. */
  predicate Stable(allowed: AllowedGpus, gap: nat, recs: seq<Record>)
    requires AllWellFormed(recs)
    decreases |recs|
  {
    recs == [] ||
    if Keeps(allowed, recs[0]) then Reread(recs[0], gap) == |recs[0]| && Stable(allowed, gap, recs[1..])
    else Stable(allowed, gap + |recs[0]|, recs[1..])
  }

  /** The separation condition: w == r, or w + d_reclen <= r + 16. */
  predicate Separated(allowed: AllowedGpus, gap: nat, recs: seq<Record>)
    requires AllWellFormed(recs)
    decreases |recs|
  {
    recs == [] ||
    if Keeps(allowed, recs[0]) then (gap == 0 || |recs[0]| <= gap + 16) && Separated(allowed, gap, recs[1..])
    else Separated(allowed, gap + |recs[0]|, recs[1..])
  }

  lemma {:induction false} SeparatedIsStable(allowed: AllowedGpus, gap: nat, recs: seq<Record>)
    requires AllWellFormed(recs) && Separated(allowed, gap, recs)
    ensures Stable(allowed, gap, recs)
    decreases |recs|
  {
    if recs != [] {
      SeparatedIsStable(allowed, if Keeps(allowed, recs[0]) then gap else gap + |recs[0]|, recs[1..]);
    }
  }

  /** Kernel records are at least 24 bytes long; then keeping records of at most 40 bytes
      (names of up to 20 bytes) is always separated. */
  lemma {:induction false} ShortNamesAreSeparated(allowed: AllowedGpus, gap: nat, recs: seq<Record>)
    requires AllWellFormed(recs)
    requires gap == 0 || gap >= 24
    requires forall i :: 0 <= i < |recs| ==> |recs[i]| >= 24 && (Keeps(allowed, recs[i]) ==> |recs[i]| <= 40)
    ensures Separated(allowed, gap, recs)
    decreases |recs|
  {
    if recs != [] {
      ShortNamesAreSeparated(allowed, if Keeps(allowed, recs[0]) then gap else gap + |recs[0]|, recs[1..]);
    }
  }

  lemma RereadAfterMove(buf: seq<Byte>, r: nat, w: nat, rec: Record, rest: seq<Byte>)
    requires WellFormed(rec) && w <= r <= |buf| && buf[r..] == rec + rest
    ensures RecLen(buf, r) == |rec| && r + |rec| <= |buf|
    ensures var next := Moved(buf, r, w, |rec|);
            RecLen(next, r) == Reread(rec, r - w) &&
            next[..w + |rec|] == buf[..w] + rec &&
            next[r + |rec|..] == rest
  {
    RecordAt(buf, r, rec, rest);
    ValidLength(buf, r);
    hide WellFormed, ValidAt, NameAt;
    MovedByte(buf, r, w, rec, 16);
    MovedByte(buf, r, w, rec, 17);
    MovedAround(buf, r, w, rec);
  }

  /** A byte at the record's old place, behind the move. */
  lemma MovedByte(buf: seq<Byte>, r: nat, w: nat, rec: Record, k: nat)
    requires w <= r && r + |rec| <= |buf| && buf[r..r+|rec|] == rec && k < |rec|
    ensures Moved(buf, r, w, |rec|)[r + k] == if r - w + k < |rec| then rec[r - w + k] else rec[k]
  {
    var from := if r - w + k < |rec| then r - w + k else k;
    assert buf[r..r+|rec|][from] == buf[r + from];
  }

  lemma MovedAround(buf: seq<Byte>, r: nat, w: nat, rec: Record)
    requires w <= r && r + |rec| <= |buf| && buf[r..r+|rec|] == rec
    ensures var next := Moved(buf, r, w, |rec|);
            next[..w + |rec|] == buf[..w] + rec && next[r + |rec|..] == buf[r + |rec|..]
  {
    forall k | 0 <= k < |rec|
      ensures Moved(buf, r, w, |rec|)[w + k] == rec[k]
    {
      assert buf[r..r+|rec|][k] == buf[r + k];
    }
  }

  predicate Malformed(tail: seq<Byte>) {
    tail != [] && !ValidAt(tail, 0)
  }

  /** All list functions unfolded once. */
  lemma Unfold(allowed: AllowedGpus, gap: nat, recs: seq<Record>)
    requires AllWellFormed(recs) && recs != []
    ensures WellFormed(recs[0]) && AllWellFormed(recs[1..])
    ensures Concat(recs) == recs[0] + Concat(recs[1..])
    ensures Keeps(allowed, recs[0]) ==>
              && Concat(Kept(allowed, recs)) == recs[0] + Concat(Kept(allowed, recs[1..]))
              && Stable(allowed, gap, recs) == (Reread(recs[0], gap) == |recs[0]| && Stable(allowed, gap, recs[1..]))
    ensures !Keeps(allowed, recs[0]) ==>
              && Concat(Kept(allowed, recs)) == Concat(Kept(allowed, recs[1..]))
              && Stable(allowed, gap, recs) == Stable(allowed, gap + |recs[0]|, recs[1..])
  {
    hide WellFormed, Reread, Keeps;
    ConcatCons(recs[0], Kept(allowed, recs[1..]));
  }

  /** The outcome of the loop from write offset `w` on, when `kept` is still to be written
      and the last `tail` bytes stop it. */
  predicate Compacted(o: Outcome, buf: seq<Byte>, w: nat, kept: seq<Byte>, tail: seq<Byte>) {
    && w + |kept| + |tail| <= |buf| == |o.bytes|
    && o.bytes[..w + |kept|] == buf[..w] + kept
    && o.bytes[|buf| - |tail|..] == tail
    && o.result == if tail == [] then w + |kept| else |buf|
  }

  /** One turn at a kept record: it is moved, and the offsets advance by the second length. */
  lemma KeptTurn(allowed: AllowedGpus, buf: seq<Byte>, r: nat, w: nat, rec: Record, rest: seq<Byte>)
    requires WellFormed(rec) && Keeps(allowed, rec) && w <= r <= |buf| && buf[r..] == rec + rest
    ensures HEADER <= |rec| <= |buf| - r && RecLen(Moved(buf, r, w, |rec|), r) == Reread(rec, r - w)
    ensures var again := Reread(rec, r - w);
            Compact(allowed, buf, r, w) == Compact(allowed, Moved(buf, r, w, |rec|), r + again, w + again)
  {
    hide Compact, ValidAt, NameAt, Moved, Reread, WellFormed, Keeps, KeepName, Name, RecLen;
    RecordAt(buf, r, rec, rest);
    ValidLength(buf, r);
    KeepsByName(allowed, rec);
    RereadAfterMove(buf, r, w, rec, rest);
    CompactStep(allowed, buf, r, w);
  }

  lemma KeepsByName(allowed: AllowedGpus, rec: Record)
    requires WellFormed(rec)
    ensures Keeps(allowed, rec) == KeepName(allowed, Name(rec))
  {
  }

  lemma DroppedTurn(allowed: AllowedGpus, buf: seq<Byte>, r: nat, w: nat, rec: Record, rest: seq<Byte>)
    requires WellFormed(rec) && !Keeps(allowed, rec) && w <= r <= |buf| && buf[r..] == rec + rest
    ensures r + |rec| <= |buf| && buf[r + |rec|..] == rest
    ensures Compact(allowed, buf, r, w) == Compact(allowed, buf, r + |rec|, w)
  {
    hide Compact, ValidAt, NameAt, WellFormed, Keeps, KeepName, Name, RecLen;
    RecordAt(buf, r, rec, rest);
    ValidLength(buf, r);
    KeepsByName(allowed, rec);
    CompactStep(allowed, buf, r, w);
  }

  /** The loop walks through any records whose kept lengths survive their moves: `next` is the
      buffer it has reached, with the kept ones written and `rest` still intact. */
  lemma {:induction false} CompactThrough(
    allowed: AllowedGpus, buf: seq<Byte>, r: nat, w: nat, recs: seq<Record>, rest: seq<Byte>)
    returns (next: seq<Byte>, r': nat, w': nat)
    requires w <= r <= |buf| && buf[r..] == Concat(recs) + rest
    requires AllWellFormed(recs) && Stable(allowed, r - w, recs)
    ensures r' == r + |Concat(recs)| && w' == w + |Concat(Kept(allowed, recs))| && w' <= r' <= |buf|
    ensures |next| == |buf| && next[r'..] == rest && next[..w'] == buf[..w] + Concat(Kept(allowed, recs))
    ensures Compact(allowed, buf, r, w) == Compact(allowed, next, r', w')
    decreases |recs|
  {
    hide Compact, ValidAt, NameAt, Moved, Reread, Concat, Kept, Stable, WellFormed;
    if recs == [] {
      NoRecords(allowed, recs);
      assert Concat(recs) + rest == rest && buf[..w] + [] == buf[..w];
      next, r', w' := buf, r, w;
    } else {
      Unfold(allowed, r - w, recs);
      var rec, below, kept := recs[0], Concat(recs[1..]) + rest, Concat(Kept(allowed, recs[1..]));
      assert Concat(recs) + rest == rec + below;
      if Keeps(allowed, rec) {
        KeptTurn(allowed, buf, r, w, rec, below);
        RereadAfterMove(buf, r, w, rec, below);
        var moved := Moved(buf, r, w, |rec|);
        next, r', w' := CompactThrough(allowed, moved, r + |rec|, w + |rec|, recs[1..], rest);
        assert buf[..w] + rec + kept == buf[..w] + (rec + kept);
      } else {
        DroppedTurn(allowed, buf, r, w, rec, below);
        assert r + |rec| - w == (r - w) + |rec|;
        next, r', w' := CompactThrough(allowed, buf, r + |rec|, w, recs[1..], rest);
      }
    }
  }

  lemma NoRecords(allowed: AllowedGpus, recs: seq<Record>)
    requires recs == []
    ensures Concat(recs) == [] && Concat(Kept(allowed, recs)) == []
  {
  }

  /** The loop invariant as a theorem: what is written is the filtered list, what is not
      yet read is intact, up to the end or up to the first malformed record. */
  lemma CompactFrom(
    allowed: AllowedGpus, buf: seq<Byte>, r: nat, w: nat, recs: seq<Record>, tail: seq<Byte>)
    requires w <= r <= |buf| && buf[r..] == Concat(recs) + tail
    requires AllWellFormed(recs) && Stable(allowed, r - w, recs)
    requires tail == [] || Malformed(tail)
    ensures Compacted(Compact(allowed, buf, r, w), buf, w, Concat(Kept(allowed, recs)), tail)
  {
    hide Compact, ValidAt, Concat, Kept, Stable, WellFormed;
    var next, r', w' := CompactThrough(allowed, buf, r, w, recs, tail);
    if tail == [] {
      CompactDone(allowed, next, r', w');
    } else {
      MalformedAt(next, r', tail);
      CompactStep(allowed, next, r', w');
    }
  }

  lemma ConcatCons(rec: Record, recs: seq<Record>)
    ensures Concat([rec] + recs) == rec + Concat(recs)
  {
    assert ([rec] + recs)[1..] == recs;
  }

  lemma MalformedAt(buf: seq<Byte>, r: nat, tail: seq<Byte>)
    requires r <= |buf| && buf[r..] == tail && Malformed(tail)
    ensures r < |buf| && !ValidAt(buf, r)
  {
    ValidAtSuffix(buf, r);
  }

  /** In-place compaction refines list filtering on every buffer that reads as a list of
      records whose kept lengths survive their moves: the reader of the first `result` bytes
      sees exactly the kept records, in order, byte for byte. */
  lemma CompactRefinesFilter(allowed: AllowedGpus, buf: seq<Byte>, recs: seq<Record>)
    requires Decode(buf) == Some(recs) && Stable(allowed, 0, recs)
    ensures var o := Compact(allowed, buf, 0, 0);
            && 0 <= o.result <= |buf| == |o.bytes|
            && o.bytes[..o.result] == Concat(Kept(allowed, recs))
            && Decode(o.bytes[..o.result]) == Some(Kept(allowed, recs))
  {
    hide Decode, Compact, Concat, Kept, Stable;
    ConcatInvertsDecode(buf);
    assert buf[0..] == Concat(recs) + [];
    CompactFrom(allowed, buf, 0, 0, recs, []);
    assert buf[..0] + Concat(Kept(allowed, recs)) == Concat(Kept(allowed, recs));
    DecodeInvertsConcat(Kept(allowed, recs));
  }

  /** A malformed tail makes the filter report the whole buffer, although the records before
      it have already been compacted: only the tail itself is sure to be untouched. */
  lemma MalformedTail(allowed: AllowedGpus, recs: seq<Record>, tail: seq<Byte>)
    requires AllWellFormed(recs) && Stable(allowed, 0, recs) && Malformed(tail)
    ensures var o, kept := Compact(allowed, Concat(recs) + tail, 0, 0), Concat(Kept(allowed, recs));
            && o.result == |Concat(recs) + tail|
            && |kept| <= |Concat(recs)|
            && o.bytes[..|kept|] == kept
            && o.bytes[|Concat(recs)|..] == tail
  {
    hide Compact, Concat, Kept, Stable, WellFormed, ValidAt;
    var buf := Concat(recs) + tail;
    assert buf[0..] == buf;
    CompactFrom(allowed, buf, 0, 0, recs, tail);
    assert buf[..0] + Concat(Kept(allowed, recs)) == Concat(Kept(allowed, recs));
  }

  lemma {:induction false} KeptOfKept(allowed: AllowedGpus, recs: seq<Record>)
    requires AllWellFormed(recs)
    ensures var kept := Kept(allowed, recs); Kept(allowed, kept) == kept && Stable(allowed, 0, kept)
    decreases |recs|
  {
    if recs != [] {
      KeptOfKept(allowed, recs[1..]);
      if Keeps(allowed, recs[0]) {
        assert Kept(allowed, recs)[1..] == Kept(allowed, recs[1..]);
      }
    }
  }

  /** Filtering a filtered buffer changes nothing, whatever the record lengths. */
  lemma CompactIdempotent(allowed: AllowedGpus, recs: seq<Record>)
    requires AllWellFormed(recs)
    ensures var filtered := Concat(Kept(allowed, recs));
            Compact(allowed, filtered, 0, 0) == Outcome(filtered, |filtered|)
  {
    hide Compact, Kept, Concat, Stable, WellFormed, Compacted;
    var kept := Kept(allowed, recs);
    KeptOfKept(allowed, recs);
    var buf := Concat(kept);
    assert Concat(Kept(allowed, kept)) == buf;
    assert buf[0..] == buf + [];
    CompactFrom(allowed, buf, 0, 0, kept, []);
    CompactedWhole(Compact(allowed, buf, 0, 0), buf);
  }

  lemma CompactedWhole(o: Outcome, buf: seq<Byte>)
    requires Compacted(o, buf, 0, buf, [])
    ensures o == Outcome(buf, |buf|)
  {
    assert o.bytes == o.bytes[..|buf|];
    assert buf[..0] + buf == buf;
  }

  // ----- the condition is exact

  /** The read offset at every test of the loop condition, up to the one where it stops. */
  datatype Trace = Stop(at: nat) | Visit(at: nat, next: Trace)

  function Offsets(allowed: AllowedGpus, buf: seq<Byte>, r: nat, w: nat): (t: Trace)
    requires w <= r
    ensures t.at == r
    decreases |buf| - r, if ValidAt(buf, r) then 1 else 0
  {
    if r >= |buf| || !ValidAt(buf, r) then Stop(r)
    else if KeepName(allowed, NameAt(buf, r)) then
      var next := Moved(buf, r, w, RecLen(buf, r));
      var n := RecLen(next, r);
      Visit(r, Offsets(allowed, next, r + n, w + n))
    else Visit(r, Offsets(allowed, buf, r + RecLen(buf, r), w))
  }

  function Boundaries(r: nat, recs: seq<Record>): (t: Trace)
    ensures t.at == r
    decreases |recs|
  {
    if recs == [] then Stop(r) else Visit(r, Boundaries(r + |recs[0]|, recs[1..]))
  }

  lemma {:induction false} OffsetsFrom(
    allowed: AllowedGpus, buf: seq<Byte>, r: nat, w: nat, recs: seq<Record>)
    requires w <= r <= |buf| && buf[r..] == Concat(recs) && AllWellFormed(recs)
    ensures Offsets(allowed, buf, r, w) == Boundaries(r, recs) <==> Stable(allowed, r - w, recs)
    decreases |recs|
  {
    hide Offsets, ValidAt, NameAt, Moved, Reread, Concat, Stable, WellFormed;
    if recs == [] {
      OffsetsEnd(allowed, buf, r, w, recs);
    } else {
      Unfold(allowed, r - w, recs);
      var rec, rest := recs[0], Concat(recs[1..]);
      RecordAt(buf, r, rec, rest);
      ValidLength(buf, r);
      OffsetsStep(allowed, buf, r, w);
      if Keeps(allowed, rec) {
        RereadAfterMove(buf, r, w, rec, rest);
        if Reread(rec, r - w) == |rec| {
          OffsetsFrom(allowed, Moved(buf, r, w, |rec|), r + |rec|, w + |rec|, recs[1..]);
        }
      } else {
        assert r + |rec| - w == (r - w) + |rec|;
        OffsetsFrom(allowed, buf, r + |rec|, w, recs[1..]);
      }
    }
  }

  lemma OffsetsEnd(allowed: AllowedGpus, buf: seq<Byte>, r: nat, w: nat, recs: seq<Record>)
    requires recs == [] && w <= r <= |buf| && buf[r..] == Concat(recs)
    ensures Offsets(allowed, buf, r, w) == Boundaries(r, recs) && Stable(allowed, r - w, recs)
  {
  }

  lemma OffsetsStep(allowed: AllowedGpus, buf: seq<Byte>, r: nat, w: nat)
    requires w <= r
    ensures Offsets(allowed, buf, r, w) ==
            if r >= |buf| || !ValidAt(buf, r) then Stop(r)
            else if KeepName(allowed, NameAt(buf, r)) then
              var next := Moved(buf, r, w, RecLen(buf, r));
              Visit(r, Offsets(allowed, next, r + RecLen(next, r), w + RecLen(next, r)))
            else Visit(r, Offsets(allowed, buf, r + RecLen(buf, r), w))
  {
  }

  /** The loop walks the record boundaries of a well-formed buffer, and stops at its end,
      exactly when every kept length survives its move. */
  lemma WalksRecordsIff(allowed: AllowedGpus, recs: seq<Record>)
    requires AllWellFormed(recs)
    ensures Offsets(allowed, Concat(recs), 0, 0) == Boundaries(0, recs) <==> Stable(allowed, 0, recs)
  {
    assert Concat(recs)[0..] == Concat(recs);
    OffsetsFrom(allowed, Concat(recs), 0, 0, recs);
  }

  // ----- what the kernel writes

  function KernelSize(nameLen: nat): nat {
    (HEADER + nameLen + 1 + 7) / 8 * 8
  }

  predicate IsName(name: seq<Byte>) {
    1 <= |name| <= 255 && '\0' !in name
  }

  /** A getdents64 record: 16 bytes of inode and offset, the length, a type byte, the name,
      its terminator and zero padding to a multiple of eight. */
  function KernelRecord(head: seq<Byte>, dtype: Byte, name: seq<Byte>): (rec: Record)
    requires |head| == 16 && IsName(name)
    ensures |rec| == KernelSize(|name|)
  {
    var size := KernelSize(|name|);
    head + [(size % 256) as char, (size / 256) as char, dtype] + name
    + seq(size - HEADER - |name|, _ => '\0')
  }

  lemma KernelRecordReads(head: seq<Byte>, dtype: Byte, name: seq<Byte>)
    requires |head| == 16 && IsName(name)
    ensures var rec := KernelRecord(head, dtype, name); WellFormed(rec) && Name(rec) == name
  {
    var rec := KernelRecord(head, dtype, name);
    var field := rec[HEADER..|rec|];
    assert rec[16] == (|rec| % 256) as char && rec[17] == (|rec| / 256) as char;
    var padding := seq(|rec| - HEADER - |name|, _ => '\0');
    assert field == name + padding;
    assert field[..|name|] == name && field[|name|] == '\0';
    FindUnique(field, '\0', |name|);
    assert rec[0+HEADER..0+RecLen(rec, 0)] == field;
  }

  /** Real bus ids have 12 bytes: a kernel listing whose kept names have at most 20 bytes is
      always filtered to exactly its kept records. */
  lemma KernelListingIsFiltered(allowed: AllowedGpus, recs: seq<Record>)
    requires AllWellFormed(recs)
    requires forall i :: 0 <= i < |recs| ==>
      |recs[i]| == KernelSize(|Name(recs[i])|) && |Name(recs[i])| >= 1 &&
      (Keeps(allowed, recs[i]) ==> |Name(recs[i])| <= 20)
    ensures var o := Compact(allowed, Concat(recs), 0, 0);
            0 <= o.result <= |o.bytes| && Decode(o.bytes[..o.result]) == Some(Kept(allowed, recs))
  {
    ShortNamesAreSeparated(allowed, 0, recs);
    SeparatedIsStable(allowed, 0, recs);
    DecodeInvertsConcat(recs);
    CompactRefinesFilter(allowed, Concat(recs), recs);
  }

  // ----- the first kept length that does not survive

  /** Exactly what the loop does at the first kept record whose length does not survive its
      move, whatever follows it: a second length of zero makes it report the whole buffer, and
      one that leads past the end is added to the result as it is. */
  lemma FirstMisread(allowed: AllowedGpus, before: seq<Record>, rec: Record, rest: seq<Byte>)
    requires AllWellFormed(before) && Stable(allowed, 0, before)
    requires WellFormed(rec) && Keeps(allowed, rec)
    ensures var buf := Concat(before) + (rec + rest);
            var kept := |Concat(Kept(allowed, before))|;
            && kept <= |Concat(before)|
            && var again := Reread(rec, |Concat(before)| - kept);
               && (again == 0 ==> Compact(allowed, buf, 0, 0).result == |buf|)
               && (|Concat(before)| + again >= |buf| ==> Compact(allowed, buf, 0, 0).result == kept + again)
  {
    hide Compact, ValidAt, NameAt, Moved, Reread, Concat, Kept, Stable, WellFormed;
    var buf := Concat(before) + (rec + rest);
    assert buf[0..] == buf;
    var at, r, w := CompactThrough(allowed, buf, 0, 0, before, rec + rest);
    KeptTurn(allowed, at, r, w, rec, rest);
    var next, again := Moved(at, r, w, |rec|), Reread(rec, r - w);
    if again == 0 {
      ZeroLengthIsInvalid(next, r);
      CompactStep(allowed, next, r, w);
    } else if r + again >= |buf| {
      CompactDone(allowed, next, r + again, w + again);
    }
  }

  lemma RereadOfLong(rec: Record, gap: nat)
    requires WellFormed(rec) && gap + 17 < |rec|
    ensures Reread(rec, gap) == U16(rec[gap + 16], rec[gap + 17])
  {
  }

  lemma PairOfRecords(allowed: AllowedGpus, first: Record, second: Record)
    requires WellFormed(first) && WellFormed(second)
    requires !Keeps(allowed, first) && Keeps(allowed, second)
    ensures var recs := [first, second];
            && AllWellFormed(recs)
            && Kept(allowed, recs) == [second] && Concat(recs) == Concat([first]) + (second + [])
            && Concat([first]) == first && Concat(Kept(allowed, [first])) == [] && Stable(allowed, 0, [first])
            && Stable(allowed, 0, recs) == (Reread(second, |first|) == |second|)
  {
    hide WellFormed, Keeps, Reread;
    var recs := [first, second];
    assert recs[1..] == [second] && [first][1..] == [];
    assert [second][1..] == [];
    assert Concat([second]) == second && Concat([first]) == first;
    assert Kept(allowed, [second]) == [second] && Kept(allowed, [first]) == [];
    assert Stable(allowed, |first|, [second]) == (Reread(second, |first|) == |second|);
    assert 0 + |first| == |first|;
  }

  /** The second length of a kernel record behind one dropped record of 24 bytes: its own
      bytes 40 and 41. */
  lemma MisreadBehindOne(allowed: AllowedGpus, head: seq<Byte>, dtype: Byte, hidden: seq<Byte>, bus: seq<Byte>)
    requires |head| == 16 && IsName(hidden) && IsName(bus) && |hidden| <= 4 && 21 <= |bus| <= 28
    requires !KeepName(allowed, hidden) && KeepName(allowed, bus)
    ensures var recs := [KernelRecord(head, dtype, hidden), KernelRecord(head, dtype, bus)];
            && AllWellFormed(recs) && Kept(allowed, recs) == [recs[1]] && |recs[1]| == 48 && |Concat(recs)| == 72
            && var again := U16(recs[1][40], recs[1][41]);
               && (again != 48 ==> !Stable(allowed, 0, recs))
               && (again == 0 ==> Compact(allowed, Concat(recs), 0, 0).result == 72)
               && (again >= 48 ==> Compact(allowed, Concat(recs), 0, 0).result == again)
  {
    hide WellFormed, KernelRecord, Keeps, Kept, Stable, Compact, Reread, Concat, U16;
    var first, second := KernelRecord(head, dtype, hidden), KernelRecord(head, dtype, bus);
    KernelRecordReads(head, dtype, hidden);
    KernelRecordReads(head, dtype, bus);
    KeepsByName(allowed, first);
    KeepsByName(allowed, second);
    PairOfRecords(allowed, first, second);
    RereadOfLong(second, 24);
    assert AllWellFormed([first]);
    FirstMisread(allowed, [first], second, []);
  }

  lemma KernelRecordByte(head: seq<Byte>, dtype: Byte, name: seq<Byte>, k: nat)
    requires |head| == 16 && IsName(name) && HEADER <= k < KernelSize(|name|)
    ensures KernelRecord(head, dtype, name)[k] == if k - HEADER < |name| then name[k - HEADER] else '\0'
  {
  }

  /** With a 21-byte bus id the refinement is false: behind one dropped record of 24 bytes,
      the terminator and padding of the moved name land on its old length field. The second
      length is zero, and the filter reports all 72 bytes instead of the 48 kept ones. */
  lemma TwentyOneByteBusIsMisread(allowed: AllowedGpus, head: seq<Byte>, dtype: Byte, hidden: seq<Byte>, bus: seq<Byte>)
    requires |head| == 16 && IsName(hidden) && IsName(bus) && |hidden| <= 4 && |bus| == 21
    requires !KeepName(allowed, hidden) && KeepName(allowed, bus)
    ensures var recs := [KernelRecord(head, dtype, hidden), KernelRecord(head, dtype, bus)];
            && AllWellFormed(recs) && Kept(allowed, recs) == [recs[1]] && |recs[1]| == 48
            && !Stable(allowed, 0, recs)
            && Compact(allowed, Concat(recs), 0, 0).result == |Concat(recs)| == 72
  {
    hide KernelRecord, Keeps, Kept, Stable, Compact, Concat;
    MisreadBehindOne(allowed, head, dtype, hidden, bus);
    KernelRecordByte(head, dtype, bus, 40);
    KernelRecordByte(head, dtype, bus, 41);
  }

  /** With a 23-byte bus id the moved name itself lands there, and its last two bytes, at least
      257 as a length, become the reported length: more than the 72 bytes the kernel wrote. */
  lemma TwentyThreeByteBusOvershoots(
    allowed: AllowedGpus, head: seq<Byte>, dtype: Byte, hidden: seq<Byte>, bus: seq<Byte>)
    requires |head| == 16 && IsName(hidden) && IsName(bus) && |hidden| <= 4 && |bus| == 23
    requires !KeepName(allowed, hidden) && KeepName(allowed, bus)
    ensures var recs := [KernelRecord(head, dtype, hidden), KernelRecord(head, dtype, bus)];
            && AllWellFormed(recs) && Kept(allowed, recs) == [recs[1]] && |recs[1]| == 48
            && Compact(allowed, Concat(recs), 0, 0).result == U16(bus[21], bus[22]) > |Concat(recs)| == 72
  {
    hide KernelRecord, Keeps, Kept, Stable, Compact, Concat;
    MisreadBehindOne(allowed, head, dtype, hidden, bus);
    KernelRecordByte(head, dtype, bus, 40);
    KernelRecordByte(head, dtype, bus, 41);
    assert bus[21] in bus && bus[22] in bus;
    assert bus[21] as int >= 1 && bus[22] as int >= 1;
  }

  /** If the second length is zero, or leads past the end without being the length of all kept
      records from there on, the reader does not get the kept records. */
  lemma MisreadIsWrong(allowed: AllowedGpus, before: seq<Record>, rec: Record, after: seq<Record>)
    requires AllWellFormed(before) && WellFormed(rec) && AllWellFormed(after)
    requires Stable(allowed, 0, before) && Keeps(allowed, rec)
    ensures var recs, kept := before + ([rec] + after), |Concat(Kept(allowed, before))|;
            && AllWellFormed(recs) && kept <= |Concat(before)|
            && var buf, again := Concat(recs), Reread(rec, |Concat(before)| - kept);
               var o := Compact(allowed, buf, 0, 0);
               again == 0 || (|Concat(before)| + again >= |buf| && kept + again != |Concat(Kept(allowed, recs))|) ==>
                 !(0 <= o.result <= |buf| && Decode(o.bytes[..o.result]) == Some(Kept(allowed, recs)))
  {
    hide Compact, Decode, Reread, Concat, Kept, Stable, WellFormed, Keeps;
    var recs, below := before + ([rec] + after), [rec] + after;
    ConcatOfBoth(before, below);
    ConcatCons(rec, after);
    KeptOfBoth(allowed, before, below);
    KeptIsShorter(allowed, below);
    var kept := |Concat(Kept(allowed, before))|;
    FirstMisread(allowed, before, rec, Concat(after));
    var buf, again := Concat(recs), Reread(rec, |Concat(before)| - kept);
    assert buf == Concat(before) + (rec + Concat(after));
    if kept == |Concat(before)| {
      RereadInPlace(rec);
    }
    var o := Compact(allowed, buf, 0, 0);
    if 0 <= o.result <= |buf| && Decode(o.bytes[..o.result]) == Some(Kept(allowed, recs)) {
      ConcatInvertsDecode(o.bytes[..o.result]);
    }
  }

  lemma RereadInPlace(rec: Record)
    requires WellFormed(rec)
    ensures Reread(rec, 0) == |rec| > 0
  {
  }

  lemma {:induction false} ConcatOfBoth(a: seq<Record>, b: seq<Record>)
    ensures Concat(a + b) == Concat(a) + Concat(b)
    decreases |a|
  {
    if a == [] {
      assert a + b == b;
    } else {
      assert (a + b)[1..] == a[1..] + b;
      ConcatOfBoth(a[1..], b);
    }
  }

  lemma {:induction false} KeptOfBoth(allowed: AllowedGpus, a: seq<Record>, b: seq<Record>)
    requires AllWellFormed(a) && AllWellFormed(b)
    ensures AllWellFormed(a + b) && Concat(Kept(allowed, a + b)) == Concat(Kept(allowed, a)) + Concat(Kept(allowed, b))
    decreases |a|
  {
    hide WellFormed;
    if a == [] {
      assert a + b == b;
    } else {
      assert (a + b)[1..] == a[1..] + b;
      KeptOfBoth(allowed, a[1..], b);
      Unfold(allowed, 0, a);
      Unfold(allowed, 0, a + b);
    }
  }

  lemma {:induction false} KeptIsShorter(allowed: AllowedGpus, recs: seq<Record>)
    requires AllWellFormed(recs)
    ensures |Concat(Kept(allowed, recs))| <= |Concat(recs)|
    decreases |recs|
  {
    hide WellFormed;
    if recs != [] {
      Unfold(allowed, 0, recs);
      KeptIsShorter(allowed, recs[1..]);
    }
  }

  // ----- a loop that leaves the boundaries and is right all the same

  /** If what follows from the misread length on reads as a record that is kept too, moving it
      as well writes the right bytes. */
  lemma HarmlessMisread(allowed: AllowedGpus, first: Record, rec: Record, more: seq<Byte>, pseudo: Record)
    requires WellFormed(first) && WellFormed(rec) && WellFormed(pseudo)
    requires !Keeps(allowed, first) && Keeps(allowed, rec) && Keeps(allowed, pseudo)
    requires var n := Reread(rec, |first|); |rec| - |first| <= n < |rec| && pseudo == rec[n..] + more
    requires |pseudo| <= |first| + 16
    ensures var o := Compact(allowed, first + (rec + more), 0, 0);
            o.result == |rec + more| <= |o.bytes| && o.bytes[..|rec + more|] == rec + more
  {
    hide Compact, Moved, Reread, Concat, Kept, Stable, WellFormed, Keeps, RecLen;
    var n := Reread(rec, |first|);
    SingleDropped(allowed, first);
    var buf := first + (rec + more);
    assert buf[0..] == Concat([first]) + (rec + more);
    var at, r, w := CompactThrough(allowed, buf, 0, 0, [first], rec + more);
    KeptTurn(allowed, at, r, w, rec, more);
    FirstMove(at, r, rec, more, n);
    var next := Moved(at, r, w, |rec|);
    LastTurn(allowed, next, r + n, w + n, rec[..n], pseudo);
    assert rec[..n] + (rec[n..] + more) == rec + more;
  }

  /** Behind the move: the record in front, and everything from the misread length on intact. */
  lemma FirstMove(buf: seq<Byte>, r: nat, rec: Record, more: seq<Byte>, n: nat)
    requires WellFormed(rec) && r <= |buf| && buf[r..] == rec + more && |rec| <= r + n && n < |rec|
    ensures r + |rec| <= |buf|
    ensures var next := Moved(buf, r, 0, |rec|); next[r + n..] == rec[n..] + more && next[..n] == rec[..n]
  {
    hide Moved, Reread, WellFormed, RecLen;
    RereadAfterMove(buf, r, 0, rec, more);
    var next := Moved(buf, r, 0, |rec|);
    MovedAbove(buf, r, 0, |rec|, r + n);
    assert buf[r + n..] == buf[r..][n..] == (rec + more)[n..] == rec[n..] + more;
    var front := buf[..0] + rec;
    assert front == rec && next[..0 + |rec|] == front;
    assert next[..n] == next[..0 + |rec|][..n];
  }

  /** The last turn, at a kept record whose length survives its move. */
  lemma LastTurn(allowed: AllowedGpus, buf: seq<Byte>, r: nat, w: nat, front: seq<Byte>, rec: Record)
    requires WellFormed(rec) && Keeps(allowed, rec) && w <= r <= |buf| && |rec| <= r - w + 16
    requires buf[r..] == rec && buf[..w] == front
    ensures var o := Compact(allowed, buf, r, w);
            o.result == |front + rec| <= |o.bytes| && o.bytes[..|front + rec|] == front + rec
  {
    hide Compact, Moved, Reread, WellFormed, Keeps, RecLen;
    RereadOfShort(rec, r - w);
    assert buf[r..] == rec + [];
    KeptTurn(allowed, buf, r, w, rec, []);
    RereadAfterMove(buf, r, w, rec, []);
    CompactDone(allowed, Moved(buf, r, w, |rec|), r + |rec|, w + |rec|);
  }

  lemma SingleDropped(allowed: AllowedGpus, first: Record)
    requires WellFormed(first) && !Keeps(allowed, first)
    ensures AllWellFormed([first]) && Concat([first]) == first
    ensures Concat(Kept(allowed, [first])) == [] && Stable(allowed, 0, [first])
  {
    hide WellFormed, Keeps;
    assert [first][1..] == [];
  }

  lemma RereadOfShort(rec: Record, gap: nat)
    requires WellFormed(rec) && |rec| <= gap + 16
    ensures Reread(rec, gap) == |rec| >= HEADER
  {
  }

  /** What lies above the move's target is what was there before. */
  lemma MovedAbove(buf: seq<Byte>, r: nat, w: nat, n: nat, k: nat)
    requires w <= r && r + n <= |buf| && w + n <= k <= |buf|
    ensures Moved(buf, r, w, n)[k..] == buf[k..]
  {
  }

  /** A head that turns the record it starts into the end of another one: 29 as a length at
      offset 11, and "." as a name at offset 14. */
  predicate IsTrailingHead(head: seq<Byte>) {
    |head| == 16 && head[11] == 29 as char && head[12] == '\0' && head[14] == '.' && head[15] == '\0'
  }

  /** The last five bytes of a 48-byte kernel record with such a 24-byte one behind it. */
  lemma PseudoRecordReads(
    head: seq<Byte>, dtype: Byte, name: seq<Byte>, head2: seq<Byte>, dtype2: Byte, name2: seq<Byte>)
    requires |head| == 16 && IsName(name) && |name| == 22
    requires IsTrailingHead(head2) && IsName(name2) && |name2| <= 4
    ensures var pseudo := KernelRecord(head, dtype, name)[43..] + KernelRecord(head2, dtype2, name2);
            |pseudo| == 29 && WellFormed(pseudo) && Name(pseudo) == "."
  {
    var rec, second := KernelRecord(head, dtype, name), KernelRecord(head2, dtype2, name2);
    var pseudo := rec[43..] + second;
    var field := pseudo[HEADER..29];
    assert pseudo[16] == head2[11] && pseudo[17] == head2[12] && pseudo[19] == head2[14] && pseudo[20] == head2[15];
    assert field[0] == '.' && field[1] == '\0' && field[..1] == ".";
    FindUnique(field, '\0', 1);
    assert pseudo[0+HEADER..0+RecLen(pseudo, 0)] == field;
  }

  /** So an unstable length does not always make the result wrong, not even in a listing the
      kernel could write, with names that all differ: behind a dropped record of 24 bytes, a
      22-byte name that ends in '+' is misread as 43 bytes long; if the record behind it has a
      trailing head, the loop goes on in the middle of a record and still returns exactly the
      kept records. */
  lemma MisreadCanBeHarmless(
    allowed: AllowedGpus, head: seq<Byte>, dtype: Byte, hidden: seq<Byte>, bus: seq<Byte>,
    head2: seq<Byte>, dtype2: Byte, name2: seq<Byte>)
    requires |head| == 16 && IsName(hidden) && IsName(bus) && |hidden| <= 4 && |bus| == 22 && bus[21] == '+'
    requires IsTrailingHead(head2) && IsName(name2) && |name2| <= 4
    requires !KeepName(allowed, hidden) && KeepName(allowed, bus) && KeepName(allowed, name2)
    ensures var recs := [KernelRecord(head, dtype, hidden), KernelRecord(head, dtype, bus),
                         KernelRecord(head2, dtype2, name2)];
            var o := Compact(allowed, Concat(recs), 0, 0);
            && AllWellFormed(recs) && !Stable(allowed, 0, recs) && Kept(allowed, recs) == recs[1..]
            && 0 <= o.result <= |o.bytes| && Decode(o.bytes[..o.result]) == Some(recs[1..])
  {
    hide WellFormed, KernelRecord, Keeps, Kept, Stable, Compact, Reread, Concat, Name, U16, IsTrailingHead, Decode;
    var first, rec := KernelRecord(head, dtype, hidden), KernelRecord(head, dtype, bus);
    TrailingHeadLength(head2);
    var second := KernelRecord(head2, dtype2, name2);
    KernelRecordReads(head, dtype, hidden);
    KernelRecordReads(head, dtype, bus);
    KernelRecordReads(head2, dtype2, name2);
    PseudoRecordReads(head, dtype, bus, head2, dtype2, name2);
    KeepsByName(allowed, first);
    KeepsByName(allowed, rec);
    KeepsByName(allowed, second);
    KeepsByName(allowed, rec[43..] + second);
    RereadOfLong(rec, 24);
    KernelRecordByte(head, dtype, bus, 40);
    KernelRecordByte(head, dtype, bus, 41);
    PlusIs43();
    TripleOfRecords(allowed, first, rec, second);
    HarmlessMisread(allowed, first, rec, second, rec[43..] + second);
    DecodeInvertsConcat([rec, second]);
    assert [first, rec, second][1..] == [rec, second];
  }

  lemma TrailingHeadLength(head: seq<Byte>)
    requires IsTrailingHead(head)
    ensures |head| == 16
  {
  }

  lemma PlusIs43()
    ensures U16('+', '\0') == 43
  {
  }

  lemma TripleOfRecords(allowed: AllowedGpus, first: Record, second: Record, third: Record)
    requires WellFormed(first) && WellFormed(second) && WellFormed(third)
    requires !Keeps(allowed, first) && Keeps(allowed, second) && Keeps(allowed, third)
    ensures var recs := [first, second, third];
            && AllWellFormed(recs) && AllWellFormed([second, third])
            && Kept(allowed, recs) == [second, third] && Concat(recs) == first + (second + third)
            && Concat([second, third]) == second + third
            && (Stable(allowed, 0, recs) ==> Reread(second, |first|) == |second|)
  {
    hide WellFormed, Keeps, Reread;
    var recs := [first, second, third];
    assert recs[1..] == [second, third] && [second, third][1..] == [third] && [third][1..] == [];
    assert Concat([third]) == third && Concat([second, third]) == second + third;
    assert Kept(allowed, [third]) == [third] && Kept(allowed, [second, third]) == [second, third];
    assert 0 + |first| == |first|;
    assert Stable(allowed, 0, recs) == Stable(allowed, |first|, [second, third]);
  }
}
