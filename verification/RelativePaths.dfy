/** The second path algorithm: names relative to a tracked GPU directory, resolved on a
    segment array that starts with the directory and may never drop below the base. */
module RelativePaths {
  import opened Text
  import opened PathNormalizer
  import opened GpuPaths

  const MIN_COUNT := 4

  datatype Effective = Passthrough(path: string) | Resolved(path: string) | Refused

  predicate IsGpuDirectory(record: FdRecord) {
    record.kind == ProcGpusDir || record.kind == ProcGpuBusDir
  }

  /** The segments the walk starts from. */
  function StartSegments(record: FdRecord): Option<seq<string>> {
    if record.kind == ProcGpuBusDir then
      if record.busId == "" then None else Some(BASE_SEGMENTS + [record.busId])
    else if record.kind == ProcGpusDir then Some(BASE_SEGMENTS)
    else None
  }

  /** The bounded walk that refuses to leave the base directory. */
  function Descend(stack: seq<string>, segs: seq<string>): Option<seq<string>>
    decreases |segs|
  {
    if segs == [] then Some(stack)
    else if segs[0] == ".." && |stack| <= MIN_COUNT then None
    else if segs[0] != "." && segs[0] != ".." && |stack| >= MAX_SEGMENTS then None
    else Descend(Apply(stack, segs[0]), segs[1..])
  }

  function Resolve(record: FdRecord, path: string, size: nat): Option<string> {
    if size < 2 || StartSegments(record) == None then None
    else
      match Descend(StartSegments(record).value, Tokens(path, '/'))
      case None => None
      case Some(stack) => if |Join(stack)| < size then Some(Join(stack)) else None
  }

  /** The directory a tracked descriptor stands for. */
  function DirectoryPath(record: FdRecord): string {
    if record.kind == ProcGpuBusDir then BASE + "/" + record.busId else BASE
  }

  /** The walk from the tracked directory leaves `/proc/driver/nvidia/gpus` at some point. */
  ghost predicate ClimbsAboveBase(record: FdRecord, path: string)
    requires StartSegments(record).Some?
  {
    WalkDips(StartSegments(record).value, Tokens(path, '/'))
  }

  ghost predicate WalkDips(stack: seq<string>, segs: seq<string>) {
    exists k | 0 <= k <= |segs| :: |Walk(stack, segs[..k])| < 4
  }

  predicate PlainRecord(record: FdRecord) {
    record.kind == ProcGpusDir || (record.kind == ProcGpuBusDir && Plain(record.busId))
  }

  // ----- the two algorithms agree

  lemma {:induction false} DescendExact(stack: seq<string>, segs: seq<string>)
    requires MIN_COUNT <= |stack|
    ensures Descend(stack, segs) == if WalkDips(stack, segs) then None else BoundedWalk(stack, segs)
    ensures Descend(stack, segs).Some? ==> |Descend(stack, segs).value| >= MIN_COUNT
    decreases |segs|
  {
    assert Walk(stack, segs[..0]) == stack;
    if segs != [] {
      var next := Apply(stack, segs[0]);
      if |next| < MIN_COUNT {
        assert Walk(stack, segs[..1]) == next;
      } else {
        DescendExact(next, segs[1..]);
        forall k | 0 <= k <= |segs| - 1
          ensures Walk(stack, segs[..k+1]) == Walk(next, segs[1..][..k])
        {
          assert segs[..k+1][1..] == segs[1..][..k];
        }
        if k :| 0 <= k <= |segs| && |Walk(stack, segs[..k])| < MIN_COUNT {
          assert k > 0;
          assert |Walk(next, segs[1..][..k-1])| < MIN_COUNT;
        }
        if k :| 0 <= k <= |segs| - 1 && |Walk(next, segs[1..][..k])| < MIN_COUNT {
          assert |Walk(stack, segs[..k+1])| < MIN_COUNT;
        }
      }
    }
  }

  lemma {:induction false} BoundedWalkAfterPlain(stack: seq<string>, a: seq<string>, b: seq<string>)
    requires AllPlain(a) && |stack| + |a| <= MAX_SEGMENTS
    ensures BoundedWalk(stack, a + b) == BoundedWalk(stack + a, b)
    decreases |a|
  {
    if a == [] {
      assert a + b == b && stack + a == stack;
    } else {
      assert (a + b)[1..] == a[1..] + b;
      BoundedWalkAfterPlain(stack + [a[0]], a[1..], b);
      assert stack + [a[0]] + a[1..] == stack + a;
    }
  }

  lemma TokensOfChild(dir: string, name: string)
    requires Plain(name)
    ensures Tokens(dir + "/" + name, '/') == Tokens(dir, '/') + [name]
  {
    TokensOfJoined(dir, name, '/');
    TokensOfWord(name, '/');
  }

  lemma StartIsDirectory(record: FdRecord)
    requires PlainRecord(record)
    ensures StartSegments(record).Some? && AllPlain(StartSegments(record).value)
    ensures |StartSegments(record).value| <= 5
    ensures Tokens(DirectoryPath(record), '/') == StartSegments(record).value
  {
    hide Tokens, Join;
    BaseIsJoin();
    TokensOfBase();
    if record.kind == ProcGpuBusDir {
      TokensOfChild(BASE, record.busId);
    }
  }

  lemma TokensOfDirectory(record: FdRecord, path: string)
    requires PlainRecord(record)
    ensures StartSegments(record).Some? && AllPlain(StartSegments(record).value)
    ensures |StartSegments(record).value| <= 5
    ensures Tokens(DirectoryPath(record) + "/" + path, '/') == StartSegments(record).value + Tokens(path, '/')
  {
    StartIsDirectory(record);
    TokensOfJoined(DirectoryPath(record), path, '/');
  }

  /** Relative resolution is normalisation of the joined absolute path, except that every
      walk leaving the base directory is refused, even one that comes back. */
  lemma ResolveIsNormalizeOfJoined(record: FdRecord, path: string, size: nat)
    requires PlainRecord(record)
    ensures StartSegments(record).Some?
    ensures Resolve(record, path, size) ==
            if ClimbsAboveBase(record, path) then None
            else Normalize(DirectoryPath(record) + "/" + path, size)
  {
    TokensOfDirectory(record, path);
    var start, segs := StartSegments(record).value, Tokens(path, '/');
    DescendExact(start, segs);
    BoundedWalkAfterPlain([], start, segs);
    assert [] + start == start;
    assert (DirectoryPath(record) + "/" + path)[0] == '/';
  }

  lemma ResolvedLocation(record: FdRecord, path: string)
    requires PlainRecord(record)
    requires StartSegments(record).Some? && !ClimbsAboveBase(record, path)
    ensures |Location(DirectoryPath(record) + "/" + path)| >= MIN_COUNT
  {
    TokensOfDirectory(record, path);
    var start, segs := StartSegments(record).value, Tokens(path, '/');
    WalkIsSurvivors(start + segs);
    WalkConcat([], start, segs);
    WalkOfPlain([], start);
    assert [] + start == start && segs[..|segs|] == segs;
  }

  /** Below the base no path is a device path, so no spelling matters. */
  lemma DeepPathsClassifyAlike(allowed: AllowedGpus, path: string, q: string)
    requires Normalize(path, PATH_MAX) == Some(q) && |Location(path)| > 2
    ensures Decide(allowed, q) == Decide(allowed, path)
    ensures Classify(q).found == Classify(path).found && (Classify(path).found ==> Classify(q) == Classify(path))
  {
    NormalizeIdempotent(path, PATH_MAX, q);
    LocationOfNormalized(path);
    ClassifyIgnoresSpelling(path, q);
    if IsDevicePath(q) {
      DevicePathsAreOutside(q);
    }
  }

  // ----- openat's view of a name

  function EffectivePath(tracked: Option<FdRecord>, path: string): Effective {
    if path != "" && path[0] == '/' then Passthrough(path)
    else if tracked == None || !IsGpuDirectory(tracked.value) then Passthrough(path)
    else
      match Resolve(tracked.value, path, PATH_MAX)
      case None => Refused
      case Some(q) => Resolved(q)
  }

  /** Opening a relative name below a tracked directory is decided, and classified, like
      opening the joined absolute path. The two part in exactly two cases: the walk climbs
      above the base, or the joined path has no normal form; then openat refuses, while the
      absolute path would be ignored by the filter in the second case. */
  lemma OpenatAgreesWithOpen(dirSpelling: string, path: string, allowed: AllowedGpus)
    requires Classify(dirSpelling).found
    requires Classify(dirSpelling).record.kind == ProcGpusDir || Classify(dirSpelling).record.kind == ProcGpuBusDir
    requires path == "" || path[0] != '/'
    ensures var record := Classify(dirSpelling).record;
            PlainRecord(record) && record.path == DirectoryPath(record) && StartSegments(record).Some?
    ensures var record := Classify(dirSpelling).record; var joined := record.path + "/" + path;
            match EffectivePath(Some(record), path)
            case Passthrough(_) => false
            case Refused => ClimbsAboveBase(record, path) || Normalize(joined, PATH_MAX) == None
            case Resolved(q) =>
              && !ClimbsAboveBase(record, path)
              && Normalize(joined, PATH_MAX) == Some(q)
              && Decide(allowed, q) == Decide(allowed, joined)
              && Classify(q).found == Classify(joined).found
              && (Classify(joined).found ==> Classify(q) == Classify(joined))
  {
    var record := Classify(dirSpelling).record;
    assert PlainRecord(record) && record.path == DirectoryPath(record) by {
      ProcRecordShape(dirSpelling);
    }
    ResolveIsNormalizeOfJoined(record, path, PATH_MAX);
    var joined := record.path + "/" + path;
    if Normalize(joined, PATH_MAX).Some? && !ClimbsAboveBase(record, path) {
      ResolvedLocation(record, path);
      DeepPathsClassifyAlike(allowed, joined, Normalize(joined, PATH_MAX).value);
    }
  }

  // ----- the program

  lemma DescendStep(stack: seq<string>, seg: string, tail: seq<string>)
    ensures Descend(stack, [seg] + tail) ==
            if seg == ".." && |stack| <= MIN_COUNT then None
            else if seg != "." && seg != ".." && |stack| >= MAX_SEGMENTS then None
            else Descend(Apply(stack, seg), tail)
  {
    assert ([seg] + tail)[1..] == tail;
  }

  /** One turn of the scanning loop: as in the normaliser, but `..` may not pop the base. */
  method ApplyBelow(segments: array<string>, count: nat, segment: string, ghost rest: seq<string>)
    returns (ok: bool, newCount: nat)
    requires segments.Length == MAX_SEGMENTS && MIN_COUNT <= count <= MAX_SEGMENTS
    modifies segments
    ensures MIN_COUNT <= newCount <= MAX_SEGMENTS
    ensures Descend(old(segments[..count]), [segment] + rest) ==
            if ok then Descend(segments[..newCount], rest) else None
  {
    DescendStep(segments[..count], segment, rest);
    if segment == ".." && count <= MIN_COUNT {
      return false, count;
    }
    ok, newCount := ApplySegment(segments, count, segment);
    if !ok {
      newCount := count;
    } else {
      assert |segments[..newCount]| == newCount;
    }
  }

  method ScanBelow(path: string, segments: array<string>, start: nat) returns (ok: bool, count: nat)
    requires segments.Length == MAX_SEGMENTS && MIN_COUNT <= start <= MAX_SEGMENTS
    modifies segments
    ensures MIN_COUNT <= count <= MAX_SEGMENTS
    ensures Descend(old(segments[..start]), Tokens(path, '/')) == if ok then Some(segments[..count]) else None
  {
    hide Tokens, Find, Apply;
    NoTokens('/');
    var offset := 0;
    count := start;
    ok := true;
    ghost var rest := Tokens(path, '/');
    ghost var goal := Descend(segments[..start], rest);
    assert path[0..] == path;
    while offset < |path|
      invariant offset <= |path| && MIN_COUNT <= count <= MAX_SEGMENTS
      invariant rest == Tokens(path[offset..], '/')
      invariant goal == Descend(segments[..count], rest)
    {
      offset := SkipSlashes(path, offset);
      if offset == |path| {
        break;
      }
      var len := SegmentLength(path, offset);
      var segment := path[offset..offset+len];
      offset := offset + len;
      ghost var below := Tokens(path[offset..], '/');
      assert rest == [segment] + below;
      rest := below;
      ok, count := ApplyBelow(segments, count, segment, rest);
      if !ok {
        return;
      }
    }
    assert path[offset..] == "";
  }

  method ResolveRelative(record: FdRecord, path: string, buffer: array<char>) returns (ok: bool)
    modifies buffer
    ensures ok <==> Resolve(record, path, buffer.Length).Some?
    ensures ok ==> var q := Resolve(record, path, buffer.Length).value;
                   |q| < buffer.Length && buffer[..|q|] == q && buffer[|q|] == '\0'
  {
    if buffer.Length < 2 {
      return false;
    }
    var segments := new string[MAX_SEGMENTS];
    segments[0], segments[1], segments[2], segments[3] := "proc", "driver", "nvidia", "gpus";
    var count := MIN_COUNT;
    assert segments[..4] == BASE_SEGMENTS;
    if record.kind == ProcGpuBusDir {
      if record.busId == "" {
        return false;
      }
      segments[count] := record.busId;
      count := count + 1;
      assert segments[..5] == BASE_SEGMENTS + [record.busId];
    } else if record.kind != ProcGpusDir {
      return false;
    }
    ok, count := ScanBelow(path, segments, count);
    if !ok {
      return false;
    }
    var used;
    ok, used := RenderSegments(segments, count, buffer);
  }

  lemma {:induction false} DescendIsWalk(stack: seq<string>, segs: seq<string>)
    requires Descend(stack, segs).Some?
    ensures Descend(stack, segs) == Some(Walk(stack, segs))
    decreases |segs|
  {
    if segs != [] {
      DescendIsWalk(Apply(stack, segs[0]), segs[1..]);
    }
  }

  lemma ResolveIsCString(record: FdRecord, path: string)
    requires CString(path) && CString(record.busId) && Resolve(record, path, PATH_MAX).Some?
    ensures CString(Resolve(record, path, PATH_MAX).value)
  {
    var start, segs := StartSegments(record).value, Tokens(path, '/');
    TokensAreCStrings(path);
    DescendIsWalk(start, segs);
    WalkKeepsCStrings(start, segs);
    JoinIsCString(Walk(start, segs));
  }

  method EffectiveOpenatPath(tracked: Option<FdRecord>, path: string) returns (e: Effective)
    requires CString(path) && (tracked.Some? ==> CString(tracked.value.busId))
    ensures e == EffectivePath(tracked, path)
    ensures e.Resolved? ==> CString(e.path)
  {
    if path != "" && path[0] == '/' {
      return Passthrough(path);
    }
    if tracked == None || !IsGpuDirectory(tracked.value) {
      return Passthrough(path);
    }
    var buffer := new char[PATH_MAX];
    var ok := ResolveRelative(tracked.value, path, buffer);
    if !ok {
      return Refused;
    }
    ResolveIsCString(tracked.value, path);
    var q := ReadString(buffer, Resolve(tracked.value, path, PATH_MAX).value);
    e := Resolved(q);
  }
}
